/** What a push refuses, it refuses for a real reason: every conflict shows a version the server holds. */
module Conflicts {
  import opened Wrappers
  import opened SyncSpec
  import opened Tables
  import opened Push

  /** `e` is a live row of the tables before or after the push. */
  ghost predicate Held(s: Store, t: Store, owner: string, e: Entity) {
    var ref := RefOf(owner, e);
    (ref in s.rows && s.rows[ref].entity == e) || (ref in t.rows && t.rows[ref].entity == e)
  }

  /** Another version of the record than the one the sender knew, with another content than what would be stored. */
  predicate Stale(c: Change, v: Verdict)
    requires v.Rejected?
  {
    c.base != v.remote.Version() && ContentOf(v.local) != ContentOf(v.remote)
  }

  /** An active notebook of another id under one of the keys of `n`. */
  ghost predicate Namesake(n: Notebook, remote: Entity) {
    && remote.NotebookEntity? && !remote.IsDeleted() && remote.Id() != n.id
    && exists k :: k in DuplicateKeys(n) && (k in DuplicateKeys(remote.notebook) || RowHasKey(remote.notebook, k))
  }

  /** The tombstone shown as a record: what was sent, deleted at its time by its device under its version. */
  ghost predicate ShowsTombstone(sent: Entity, tomb: Tombstone, shown: Entity) {
    && shown.Kind() == sent.Kind() && shown.Id() == sent.Id() && RefsOf(shown) == RefsOf(sent)
    && shown.DeletedAt() == Some(tomb.deletedAt) && shown.UpdatedAt() == tomb.deletedAt
    && shown.DeviceId() == tomb.deviceId && shown.Version() == tomb.version
    && match WordingOf(shown)
       case NoteWording(title, body, titleHash, bodyHash, createdAt, deletedAt, trashedAt, favorite) =>
         WordingOf(sent) == NoteWording(title, body, titleHash, bodyHash, createdAt, sent.DeletedAt(), trashedAt, favorite)
       case NotebookWording(name, nameHash, createdAt, deletedAt) =>
         WordingOf(sent) == NotebookWording(name, nameHash, createdAt, sent.DeletedAt())
  }

  lemma DeletedRemoteShows(sent: Entity, tomb: Tombstone)
    ensures ShowsTombstone(sent, tomb, DeletedRemote(sent, tomb))
  {
  }

  /**
   The local side is what was sent; the remote side is the tombstone or row the sender did not know, and that differs, or
   the namesake in the way.
   */
  ghost predicate Genuine(s: Store, t: Store, owner: string, c: Change, v: Verdict, options: Options)
    requires v.Rejected?
  {
    var ref := RefOf(owner, c.record);
    && RefOf(owner, v.local) == ref && WordingOf(v.local) == WordingOf(c.record)
    && v.local.UpdatedAt() == c.record.UpdatedAt() && v.local.Version() == c.record.Version()
    && match v.reason
       case DeletedRemotely =>
         if ref in s.rows then v.remote == s.rows[ref].entity && v.remote.IsDeleted() && Stale(c, v)
         else ref in s.tombs && ShowsTombstone(c.record, s.tombs[ref], v.remote)
              && c.base != s.tombs[ref].version && !(options.allowTombstoneOverwrite && Outlives(c.record, s.tombs[ref]))
       case RemoteChanged => ref in s.rows && v.remote == s.rows[ref].entity && !v.remote.IsDeleted() && Stale(c, v)
       case DuplicateName => c.record.NotebookEntity? && Namesake(c.record.notebook, v.remote) && Held(s, t, owner, v.remote)
  }

  lemma NoteConflictGenuine(s: Store, t: Store, owner: string, c: Change, options: Options)
    requires c.record.NoteEntity? && NoteVerdict(s, owner, c, options).Rejected?
    ensures Genuine(s, t, owner, c, NoteVerdict(s, owner, c, options), options)
  {
    hide NewerOrTie, NoteNotebookIds, LiveNotebook, ContentOf, RecordsDiffer, Outlives, Syncable, WordingOf, ShowsTombstone, DeletedRemote;
    var ref := RefOf(owner, c.record);
    SyncableKeepsWording(s, owner, c.record.note);
    if ref in s.rows {
      RecordsDifferIffContentDiffers(NoteEntity(Syncable(s, owner, c.record.note)), s.rows[ref].entity);
    } else if ref in s.tombs {
      GivesWayIff(NoteEntity(Syncable(s, owner, c.record.note)), s.tombs[ref], c.base, options);
      SameOutlives(NoteEntity(Syncable(s, owner, c.record.note)), c.record, s.tombs[ref]);
      DeletedRemoteShows(c.record, s.tombs[ref]);
    }
  }

  /** The accepted names are those of notebooks accepted earlier in the request. */
  ghost predicate ActiveAccepted(acc: Acc) {
    forall k :: k in acc.active ==> exists i :: 0 <= i < |acc.verdicts| && Rememberable(acc.verdicts[i], acc.active[k], k)
  }

  /** The verdict accepted this active notebook, and the key is one of its own. */
  predicate Rememberable(v: Verdict, n: Notebook, k: NameKey) {
    v.Accepted() && v.entity == NotebookEntity(n) && n.deletedAt.None? && k in DuplicateKeys(n)
  }

  lemma RecordActive(acc: Acc, v: Verdict)
    requires ActiveAccepted(acc)
    ensures ActiveAccepted(Record(acc, v))
  {
    hide DuplicateKeys;
    var next := Record(acc, v);
    forall k | k in next.active
      ensures exists i :: 0 <= i < |next.verdicts| && Rememberable(next.verdicts[i], next.active[k], k)
    {
      if k in acc.active && next.active[k] == acc.active[k] {
        var i :| 0 <= i < |acc.verdicts| && Rememberable(acc.verdicts[i], acc.active[k], k);
        assert next.verdicts[i] == acc.verdicts[i];
      } else {
        assert next.verdicts[|acc.verdicts|] == v;
      }
    }
  }

  lemma {:induction false} LoopActive(s: Store, owner: string, scan: seq<Ref>, changes: seq<Change>, options: Options)
    requires AllNotebooks(changes)
    ensures ActiveAccepted(NotebookVerdicts(s, owner, scan, changes, options))
  {
    if changes != [] {
      var front := changes[..|changes| - 1];
      forall c | c in front ensures c in changes {}
      LoopActive(s, owner, scan, front, options);
      var acc := NotebookVerdicts(s, owner, scan, front, options);
      RecordActive(acc, NotebookVerdict(s, owner, scan, acc, changes[|changes| - 1], options));
    }
  }

  /** The verdict on the `i`-th notebook is the one reached after the notebooks before it. */
  lemma {:induction false} VerdictAt(s: Store, owner: string, scan: seq<Ref>, changes: seq<Change>, options: Options, i: nat)
    requires AllNotebooks(changes) && i < |changes|
    ensures AllNotebooks(changes[..i])
    ensures
      var acc := NotebookVerdicts(s, owner, scan, changes[..i], options);
      var all := NotebookVerdicts(s, owner, scan, changes, options).verdicts;
      all[i] == NotebookVerdict(s, owner, scan, acc, changes[i], options) && acc.verdicts == all[..i]
  {
    hide NotebookVerdict;
    var front := changes[..|changes| - 1];
    forall c | c in front ensures c in changes {}
    if i < |front| {
      VerdictAt(s, owner, scan, front, options, i);
      assert front[..i] == changes[..i];
    }
  }

  lemma LawfulAt(s: Store, owner: string, changes: seq<Change>, verdicts: seq<Verdict>, options: Options, i: nat)
    requires |verdicts| == |changes| && LawfulAll(s, owner, changes, verdicts, options) && i < |changes|
    ensures Lawful(s, owner, changes[i], verdicts[i], options)
  {
  }

  /** A namesake found among the names accepted earlier in the request is in the tables afterwards. */
  lemma AcceptedNamesakeHeld(s: Store, t: Store, owner: string, changes: seq<Change>, verdicts: seq<Verdict>, options: Options, acc: Acc, keys: seq<NameKey>, record: Notebook)
    requires Inv(s) && |verdicts| == |changes| && Effect(s, t, owner, changes, verdicts)
    requires LawfulAll(s, owner, changes, verdicts, options)
    requires ActiveAccepted(acc) && acc.verdicts <= verdicts && FirstAccepted(acc.active, record, keys).Some?
    ensures Held(s, t, owner, NotebookEntity(FirstAccepted(acc.active, record, keys).value))
    ensures keys == DuplicateKeys(record) ==> Namesake(record, NotebookEntity(FirstAccepted(acc.active, record, keys).value))
  {
    hide FirstAccepted, DuplicateKeys, Inv, LawfulAll;
    var found := FirstAccepted(acc.active, record, keys).value;
    var k :| k in keys && k in acc.active && acc.active[k] == found;
    var j :| 0 <= j < |acc.verdicts| && Rememberable(acc.verdicts[j], found, k);
    assert verdicts[j] == acc.verdicts[j];
    LawfulAt(s, owner, changes, verdicts, options, j);
    InvAt(s, RefOf(owner, changes[j].record));
  }

  lemma StoredNamesakeHeld(s: Store, t: Store, owner: string, scan: seq<Ref>, record: Notebook, keys: seq<NameKey>)
    requires Inv(s) && FirstStoredDuplicate(s, owner, scan, record, keys).Some?
    ensures var ref := FirstStoredDuplicate(s, owner, scan, record, keys).value;
      && ref in s.rows && s.rows[ref].entity.NotebookEntity? && Held(s, t, owner, s.rows[ref].entity)
      && (keys == DuplicateKeys(record) ==> Namesake(record, s.rows[ref].entity))
  {
    hide FirstStoredDuplicate, RowHasKey, DuplicateKeys;
    InvAt(s, FirstStoredDuplicate(s, owner, scan, record, keys).value);
  }

  lemma NotebookConflictGenuine(s: Store, t: Store, owner: string, scan: seq<Ref>, changes: seq<Change>, options: Options, i: nat)
    requires Inv(s) && AllNotebooks(changes) && i < |changes|
    requires Effect(s, t, owner, changes, NotebookVerdicts(s, owner, scan, changes, options).verdicts)
    requires LawfulAll(s, owner, changes, NotebookVerdicts(s, owner, scan, changes, options).verdicts, options)
    requires NotebookVerdicts(s, owner, scan, changes, options).verdicts[i].Rejected?
    ensures Genuine(s, t, owner, changes[i], NotebookVerdicts(s, owner, scan, changes, options).verdicts[i], options)
  {
    hide FirstStoredDuplicate, FirstAccepted, NotebookVerdicts, Effect, LawfulAll, Inv, ActiveAccepted, Held, DuplicateKeys, NewerOrTie, ContentOf, RecordsDiffer, Namesake, Outlives, ShowsTombstone, DeletedRemote;
    var all := NotebookVerdicts(s, owner, scan, changes, options).verdicts;
    VerdictAt(s, owner, scan, changes, options, i);
    var acc := NotebookVerdicts(s, owner, scan, changes[..i], options);
    LoopActive(s, owner, scan, changes[..i], options);
    var record := changes[i].record.notebook;
    var keys := DuplicateKeys(record);
    var ref := RefOf(owner, changes[i].record);
    if ref in s.rows {
      RecordsDifferIffContentDiffers(changes[i].record, s.rows[ref].entity);
    } else if ref in s.tombs {
      GivesWayIff(changes[i].record, s.tombs[ref], changes[i].base, options);
      DeletedRemoteShows(changes[i].record, s.tombs[ref]);
    }
    if all[i].reason == DuplicateName {
      if FirstAccepted(acc.active, record, keys).Some? {
        AcceptedNamesakeHeld(s, t, owner, changes, all, options, acc, keys, record);
      } else {
        StoredNamesakeHeld(s, t, owner, scan, record, keys);
      }
    }
  }

  /** Every conflict of a push shows what was sent and a tombstone or row the server really holds. */
  lemma ConflictsAreGenuine(s: Store, owner: string, scan: seq<Ref>, request: Request, options: Options, now: Time)
    requires Inv(s) && WellFormed(request) && UniqueIds(request.notebooks) && UniqueIds(request.notes)
    ensures
      var o := Run(s, owner, scan, request, options, now);
      && (forall i :: 0 <= i < |request.notebooks| && o.notebooks[i].Rejected? ==> Genuine(s, o.store, owner, request.notebooks[i], o.notebooks[i], options))
      && (forall i :: 0 <= i < |request.notes| && o.notes[i].Rejected? ==> Genuine(s, o.store, owner, request.notes[i], o.notes[i], options))
  {
    hide Genuine, Held, Effect, Lawful, NoteVerdict, NotebookVerdicts;
    var o := Run(s, owner, scan, request, options, now);
    var mid := ApplyVerdicts(s, owner, o.notebooks, now);
    RunPhases(s, owner, scan, request, options, now);
    forall i | 0 <= i < |request.notebooks| && o.notebooks[i].Rejected?
      ensures Genuine(s, o.store, owner, request.notebooks[i], o.notebooks[i], options)
    {
      NotebookConflictGenuine(s, mid, owner, scan, request.notebooks, options, i);
      NotebooksStay(mid, o.store, owner, request.notes, o.notes);
      GenuineLater(s, mid, o.store, owner, request.notebooks[i], o.notebooks[i], options);
    }
    forall i | 0 <= i < |request.notes| && o.notes[i].Rejected?
      ensures Genuine(s, o.store, owner, request.notes[i], o.notes[i], options)
    {
      NoteConflictGenuine(mid, o.store, owner, request.notes[i], options);
      PhasesApart(s, mid, owner, request.notebooks, o.notebooks, RefOf(owner, request.notes[i].record));
      NoteGenuineEarlier(s, mid, o.store, owner, request.notes[i], options);
    }
  }

  lemma NotebooksStay(s: Store, t: Store, owner: string, notes: seq<Change>, verdicts: seq<Verdict>)
    requires AllNotes(notes) && |verdicts| == |notes| && Effect(s, t, owner, notes, verdicts)
    ensures forall ref: Ref :: ref.kind == NotebookKind ==> SameAt(s, t, ref)
  {
    forall ref: Ref | ref.kind == NotebookKind ensures SameAt(s, t, ref) {
      PhasesApart(s, t, owner, notes, verdicts, ref);
    }
  }

  lemma GenuineLater(s: Store, mid: Store, t: Store, owner: string, c: Change, v: Verdict, options: Options)
    requires v.Rejected? && Genuine(s, mid, owner, c, v, options)
    requires forall ref: Ref :: ref.kind == NotebookKind ==> SameAt(mid, t, ref)
    ensures Genuine(s, t, owner, c, v, options)
  {
    hide Namesake, Stale;
    if v.reason == DuplicateName {
      NamesakeIsNotebook(c.record.notebook, v.remote);
      assert SameAt(mid, t, RefOf(owner, v.remote));
    }
  }

  lemma NamesakeIsNotebook(n: Notebook, remote: Entity)
    requires Namesake(n, remote)
    ensures remote.NotebookEntity?
  {
  }

  lemma NoteGenuineEarlier(s: Store, mid: Store, t: Store, owner: string, c: Change, options: Options)
    requires c.record.NoteEntity? && NoteVerdict(mid, owner, c, options).Rejected?
    requires SameAt(s, mid, RefOf(owner, c.record))
    requires Genuine(mid, t, owner, c, NoteVerdict(mid, owner, c, options), options)
    ensures Genuine(s, t, owner, c, NoteVerdict(mid, owner, c, options), options)
  {
    hide Stale, NewerOrTie;
    var ref := RefOf(owner, c.record);
    assert RowAt(s, ref) == RowAt(mid, ref) && TombAt(s, ref) == TombAt(mid, ref);
  }
}
