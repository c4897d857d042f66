/** Every action of a device keeps its records honest: each base is a version the device knows, each synced text is the server's. */
module DeviceSteps {
  import opened Wrappers
  import opened SyncSpec
  import opened Tables
  import opened Push
  import opened Client
  import opened System
  import opened LocalSafety

  /** The versions an action shows: a row that replaced the local copy, or the remote side of a resolved conflict. */
  function Shows(r: Replica, a: Action): set<(string, Ref, int)> {
    match a
    case PullRow(remote, _) =>
      var ref := RefOf(OWNER, remote);
      var m := Merged(if ref in r.records then Some(r.records[ref]) else None, remote, r.device);
      if m.Take? && m.local.status == Synced then {(r.device, ref, remote.Version())} else {}
    case Resolve(id, _, _, _, _) =>
      if id in r.conflicts && !r.conflicts[id].resolved then
        var remote := r.conflicts[id].conflict.remote;
        {(r.device, RefOf(OWNER, remote), remote.Version())}
      else {}
    case _ => {}
  }

  /** The changes an action makes ready to be pushed. */
  function Prepares(r: Replica, a: Action): set<(string, Change)> {
    if a.Prepare? then set c | c in Outbox(r.records, r.device) :: (r.device, c) else {}
  }

  /** The version an answer names. */
  function Tells(r: Replica, a: Action): set<(string, Ref, int)> {
    if a.Receive? then {(r.device, a.ack.ref, a.ack.version)} else {}
  }

  ghost function Learned(k: Knowledge, r: Replica, a: Action): Knowledge {
    k.(shown := k.shown + Shows(r, a), told := k.told + Tells(r, a), prepared := k.prepared + Prepares(r, a))
  }

  /** The action is an answer that finds its record with the version and time it was pushed with. */
  predicate Answers(r: Replica, a: Action, ref: Ref) {
    a.Receive? && a.ack.ref == ref && ref in r.records && StillMatches(r.records[ref], a.ack.pushed)
  }

  /** Whether a record is marked after an action: by an answer that found another text, or it was and is unchanged. */
  ghost predicate Marked(r: Replica, a: Action, ref: Ref, mistaken: set<(string, Ref)>) {
    if Answers(r, a, ref) then !SameText(r.records[ref].entity, a.ack.pushed)
    else ref in r.records && ref in Act(r, OWNER, a).records && Act(r, OWNER, a).records[ref] == r.records[ref] && (r.device, ref) in mistaken
  }

  ghost function MistakenAfter(r: Replica, a: Action, mistaken: set<(string, Ref)>): set<(string, Ref)>
  {
    var after := Act(r, OWNER, a).records;
    (set x | x in mistaken && x.0 != r.device) + (set ref | ref in after && Marked(r, a, ref, mistaken) :: (r.device, ref))
  }

  ghost predicate Enabled(y: State, d: string, a: Action) {
    d in y.devices &&
    match a
    case Receive(ack) => (d, ack) in y.acks
    case Refused(c, _) => (d, c) in y.notices
    case PullRow(remote, _) => HistoryIs(y.known, RefOf(OWNER, remote), remote.Version(), Some(remote))
    case PullDelete(ref) => exists v :: HistoryIs(y.known, ref, v, None)
    case _ => true
  }

  ghost function Acted(y: State, d: string, a: Action): State
    requires d in y.devices
  {
    y.(devices := y.devices[d := Act(y.devices[d], OWNER, a)], known := Learned(y.known, y.devices[d], a),
       mistaken := MistakenAfter(y.devices[d], a, y.mistaken))
  }

  /******* One record at a time *******/

  lemma LearnedGrows(k: Knowledge, r: Replica, a: Action)
    ensures Grows(k, Learned(k, r, a))
    ensures Learned(k, r, a).history == k.history && Learned(k, r, a).author == k.author
  {
  }

  lemma PreparedLocalOk(k: Knowledge, d: string, ref: Ref, l: Local)
    requires LocalOk(k, d, ref, l)
    ensures LocalOk(k, d, ref, Prepared(l, d)) && PreparedOk(k, d, Change(Prepared(l, d).entity, SafeBase(l)))
  {
  }

  /** An acceptance: synced under the accepted version if nothing was edited, else pending on top of it. */
  lemma AcceptedLocalOk(k: Knowledge, d: string, l: Local, a: Ack)
    requires LocalOk(k, d, a.ref, l) && (d, a.ref, a.version) in k.told
    ensures LocalOk(k, d, a.ref, Accepted(l, a.pushed, a.version))
  {
  }

  lemma AbsorbedLocalOk(k: Knowledge, d: string, ref: Ref, l: Local, c: Conflict)
    requires LocalOk(k, d, ref, l) && ConflictOk(k, c) && Absorbable(c, d) && ref == RefOf(OWNER, c.local)
    ensures LocalOk(k, d, ref, Absorbed(l, c.remote.Version()))
  {
  }

  lemma RemoteLocalOk(k: Knowledge, d: string, e: Entity)
    requires RefOf(OWNER, e).owner == OWNER && (d, RefOf(OWNER, e), e.Version()) in k.shown
    ensures LocalOk(k, d, RefOf(OWNER, e), FromRemote(e))
  {
  }

  /******* One action *******/

  /** The records of an action whose every record is sound. */
  ghost predicate AllOk(k: Knowledge, d: string, records: map<Ref, Local>) {
    forall ref :: ref in records ==> LocalOk(k, d, ref, records[ref])
  }

  lemma MovedSound(k: Knowledge, d: string, records: map<Ref, Local>, from: string, to: string, device: string, t: Time)
    requires AllOk(k, d, records)
    ensures AllOk(k, d, MoveNotebook(records, from, to, device, t))
  {
    hide BaseOk, NoteNotebookIds, Replaced, SafePendingVersion;
    var moved := MoveNotebook(records, from, to, device, t);
    forall ref | ref in moved ensures LocalOk(k, d, ref, moved[ref]) {
      assert LocalOk(k, d, ref, records[ref]);
    }
  }

  lemma DroppedSound(k: Knowledge, d: string, records: map<Ref, Local>, notebook: string, device: string, t: Time)
    requires AllOk(k, d, records)
    ensures AllOk(k, d, DropNotebook(records, notebook, device, t))
  {
    hide BaseOk, NoteNotebookIds, Without, SafePendingVersion;
    var dropped := DropNotebook(records, notebook, device, t);
    forall ref | ref in dropped ensures LocalOk(k, d, ref, dropped[ref]) {
      assert LocalOk(k, d, ref, records[ref]);
    }
  }

  lemma CopySound(k: Knowledge, d: string, e: Entity, id: string, name: string, device: string, t: Time)
    ensures LocalOk(k, d, RefOf(OWNER, e).(id := id), CopyOf(e, id, name, device, t))
  {
  }

  lemma ResolvedNamesSound(k: Knowledge, d: string, records: map<Ref, Local>, c: Conflict, choice: Choice, copy: string, name: string, now: Time)
    requires AllOk(k, d, records) && ConflictOk(k, c) && (d, RefOf(OWNER, c.remote), c.remote.Version()) in k.shown
    ensures AllOk(k, d, ResolvedNames(records, OWNER, c, choice, copy, name, d, now))
  {
    hide AllOk, LocalOk, MoveNotebook, CopyOf, SelectsRemote, FromRemote;
    var ref, remoteRef := RefOf(OWNER, c.local), RefOf(OWNER, c.remote);
    RemoteLocalOk(k, d, c.remote);
    var taken := records[remoteRef := FromRemote(c.remote)];
    PutOk(k, d, records, remoteRef, FromRemote(c.remote));
    MovedSound(k, d, taken, c.local.Id(), c.remote.Id(), d, now);
    FewerSound(k, d, MoveNotebook(taken, c.local.Id(), c.remote.Id(), d, now), ref);
    var copyRef, l := ref.(id := copy), CopyOf(c.local, copy, name, d, now);
    CopySound(k, d, c.local, copy, name, d, now);
    PutOk(k, d, taken, copyRef, l);
    MovedSound(k, d, taken[copyRef := l], c.local.Id(), copy, d, now);
    FewerSound(k, d, MoveNotebook(taken[copyRef := l], c.local.Id(), copy, d, now), ref);
  }

  lemma FewerSound(k: Knowledge, d: string, records: map<Ref, Local>, ref: Ref)
    requires AllOk(k, d, records)
    ensures AllOk(k, d, records - {ref})
  {
    hide LocalOk;
  }

  lemma ResolvedRecordsSound(k: Knowledge, d: string, records: map<Ref, Local>, c: Conflict, choice: Choice, copy: string, now: Time)
    requires AllOk(k, d, records) && ConflictOk(k, c) && (d, RefOf(OWNER, c.remote), c.remote.Version()) in k.shown
    requires c.reason != DuplicateName
    ensures AllOk(k, d, ResolvedRecords(records, OWNER, c, choice, copy, d, now))
  {
    hide AllOk, LocalOk, MoveNotebook, DropNotebook, CopyOf, SelectsRemote, FromRemote, Resolved;
    var ref := RefOf(OWNER, c.remote);
    RemoteLocalOk(k, d, c.remote);
    var both := records[ref := FromRemote(c.remote)][ref.(id := copy) := CopyOf(c.local, copy, CopyTitle(c.local), d, now)];
    PutOk(k, d, records, ref, FromRemote(c.remote));
    CopySound(k, d, c.local, copy, CopyTitle(c.local), d, now);
    assert RefOf(OWNER, c.local) == ref;
    PutOk(k, d, records[ref := FromRemote(c.remote)], ref.(id := copy), CopyOf(c.local, copy, CopyTitle(c.local), d, now));
    MovedSound(k, d, both, c.local.Id(), copy, d, now);
    ResolvedSound(k, d, c, choice);
    PutOk(k, d, records, ref, Resolved(c, choice, d));
    DroppedSound(k, d, records[ref := Resolved(c, choice, d)], c.remote.Id(), d, now);
  }

  lemma ResolvedSound(k: Knowledge, d: string, c: Conflict, choice: Choice)
    requires ConflictOk(k, c) && (d, RefOf(OWNER, c.remote), c.remote.Version()) in k.shown && c.reason != DuplicateName
    ensures LocalOk(k, d, RefOf(OWNER, c.remote), Resolved(c, choice, d))
  {
    hide SelectsRemote;
    RemoteLocalOk(k, d, c.remote);
  }

  /******* Every action *******/

  lemma EditSound(k: Knowledge, r: Replica, a: Action)
    requires AllOk(k, r.device, r.records) && (a.Edit? || a.Create? || a.Discard?)
    ensures AllOk(k, r.device, Act(r, OWNER, a).records)
  {
    hide Knows;
    match a
    case Edit(ref, e, now) => {
      if ref in r.records && RefOf(OWNER, e) == ref {
        assert LocalOk(k, r.device, ref, r.records[ref]);
        PutOk(k, r.device, r.records, ref, Edited(r.records[ref], e, r.device, now));
      }
    }
    case Create(e, now) => {
      var l := Local(WithTime(WithDevice(e, r.device), now).WithVersion(1), Pending, 0);
      PutOk(k, r.device, r.records, RefOf(OWNER, e), l);
    }
    case Discard(ref) => FewerSound(k, r.device, r.records, ref);
  }

  lemma PrepareOk(k: Knowledge, r: Replica)
    requires AllOk(k, r.device, r.records)
    ensures AllOk(k, r.device, PrepareAll(r.records, r.device))
    ensures forall c :: c in Outbox(r.records, r.device) ==> PreparedOk(k, r.device, c)
    ensures forall ref :: ref in PrepareAll(r.records, r.device) && r.records[ref].status == Pending ==>
      ReadyAs(r.records[ref], PrepareAll(r.records, r.device)[ref], r.device)
  {
    hide LocalOk, PreparedOk, Prepared, LocalOnlyDeleted, ReadyAs;
    forall ref | ref in PrepareAll(r.records, r.device) && r.records[ref].status == Pending
      ensures ReadyAs(r.records[ref], PrepareAll(r.records, r.device)[ref], r.device)
    {
      PrepareSendsEveryEdit(r.records, r.device, ref);
    }
    forall ref | ref in r.records ensures LocalOk(k, r.device, ref, Prepared(r.records[ref], r.device))
      ensures PreparedOk(k, r.device, Change(Prepared(r.records[ref], r.device).entity, SafeBase(r.records[ref])))
    {
      PreparedLocalOk(k, r.device, ref, r.records[ref]);
    }
  }

  lemma PutOk(k: Knowledge, d: string, records: map<Ref, Local>, ref: Ref, l: Local)
    requires AllOk(k, d, records) && LocalOk(k, d, ref, l)
    ensures AllOk(k, d, records[ref := l])
  {
    hide LocalOk;
  }

  lemma ReceiveOk(k: Knowledge, r: Replica, ack: Ack)
    requires AllOk(k, r.device, r.records) && (r.device, ack.ref, ack.version) in k.told
    ensures AllOk(k, r.device, MarkAccepted(r.records, [ack]))
  {
    hide LocalOk, Accepted;
    assert [ack][..0] == [];
    assert MarkAccepted(r.records, []) == r.records;
    if ack.ref in r.records {
      AcceptedLocalOk(k, r.device, r.records[ack.ref], ack);
      PutOk(k, r.device, r.records, ack.ref, Accepted(r.records[ack.ref], ack.pushed, ack.version));
    }
  }

  lemma SaveOk(k: Knowledge, r: Replica, ref: Ref, id: nat, c: Conflict)
    requires ReplicaOk(k, r.device, r) && ConflictOk(k, c) && ref == RefOf(OWNER, c.local)
    ensures ReplicaOk(k, r.device, SaveConflict(r, ref, id, c))
  {
    hide BaseOk, Reflects, RemoteOk;
    if ref in r.records {
      assert LocalOk(k, r.device, ref, r.records[ref]);
      RemoteSideOnly(k, c, r.records[ref].entity);
    }
  }

  /** The remote side of a conflict does not depend on the local one. */
  lemma RemoteSideOnly(k: Knowledge, c: Conflict, e: Entity)
    requires RemoteOk(k, c)
    ensures RemoteOk(k, c.(local := e))
  {
  }

  lemma AbsorbOk(k: Knowledge, r: Replica, c: Conflict)
    requires ReplicaOk(k, r.device, r) && ConflictOk(k, c) && Absorbable(c, r.device)
    ensures ReplicaOk(k, r.device, Absorb(r, RefOf(OWNER, c.local), c))
  {
    hide LocalOk, ConflictOk, Absorbed;
    var ref := RefOf(OWNER, c.local);
    if ref in r.records {
      AbsorbedLocalOk(k, r.device, ref, r.records[ref], c);
    }
  }

  lemma MergeOk(k: Knowledge, r: Replica, remote: Entity, id: nat)
    requires ReplicaOk(k, r.device, r)
    requires Reflects(k, RefOf(OWNER, remote), remote.Version(), remote)
    requires var at := (RefOf(OWNER, remote), remote.Version()); at in k.author && k.author[at] == remote.DeviceId()
    requires Shows(r, PullRow(remote, id)) <= k.shown
    ensures ReplicaOk(k, r.device, MergeOne(r, OWNER, remote, id))
  {
    hide RecordsDiffer, Reflects;
    var ref := RefOf(OWNER, remote);
    var m := Merged(if ref in r.records then Some(r.records[ref]) else None, remote, r.device);
    match m
    case Take(l) => {
      if l.status == Synced {
        assert (r.device, ref, remote.Version()) in k.shown;
        RemoteLocalOk(k, r.device, remote);
      } else {
        assert LocalOk(k, r.device, ref, r.records[ref]);
        assert LocalOk(k, r.device, ref, l);
      }
      MergedOk(k, r, ref, l);
    }
    case Clash => {
      assert LocalOk(k, r.device, ref, r.records[ref]);
      SaveOk(k, r, ref, id, Conflict(RemoteChanged, r.records[ref].entity, remote));
    }
    case Ignore =>
  }

  lemma MergedOk(k: Knowledge, r: Replica, ref: Ref, l: Local)
    requires ReplicaOk(k, r.device, r) && LocalOk(k, r.device, ref, l)
    ensures ReplicaOk(k, r.device, r.(records := r.records[ref := l]))
  {
    hide LocalOk, ConflictOk;
  }

  lemma RepairOk(k: Knowledge, r: Replica, id: nat)
    requires ReplicaOk(k, r.device, r)
    ensures ReplicaOk(k, r.device, RepairOne(r, OWNER, id))
  {
    hide LocalOk, ConflictOk, Absorb;
    if id in r.conflicts && !r.conflicts[id].resolved && Absorbable(r.conflicts[id].conflict, r.device) {
      AbsorbOk(k, r, r.conflicts[id].conflict);
      AbsorbLeavesConflicts(r, RefOf(OWNER, r.conflicts[id].conflict.local), r.conflicts[id].conflict);
    }
  }

  lemma AbsorbLeavesConflicts(r: Replica, ref: Ref, c: Conflict)
    ensures Absorb(r, ref, c).conflicts == r.conflicts && Absorb(r, ref, c).device == r.device
  {
  }

  lemma ResolveSound(k: Knowledge, r: Replica, a: Action)
    requires a.Resolve? && AllOk(k, r.device, r.records) && Shows(r, a) <= k.shown
    requires forall id :: id in r.conflicts ==> ConflictOk(k, r.conflicts[id].conflict)
    ensures AllOk(k, r.device, Act(r, OWNER, a).records)
  {
    hide AllOk, ConflictOk, ResolvedNames, ResolvedRecords;
    if a.conflictId in r.conflicts && !r.conflicts[a.conflictId].resolved {
      var c := r.conflicts[a.conflictId].conflict;
      assert (r.device, RefOf(OWNER, c.remote), c.remote.Version()) in Shows(r, a);
      if c.reason == DuplicateName {
        ResolvedNamesSound(k, r.device, r.records, c, a.choice, a.copy, a.name, a.now);
      } else {
        ResolvedRecordsSound(k, r.device, r.records, c, a.choice, a.copy, a.now);
      }
    }
  }

  /** The actions that write new texts keep the replica honest. */
  lemma WritingActionOk(k: Knowledge, r: Replica, a: Action)
    requires ReplicaOk(k, r.device, r)
    requires a.Edit? || a.Create? || a.Discard? || a.DropReferences? || a.Resolve?
    ensures ReplicaOk(Learned(k, r, a), r.device, Act(r, OWNER, a))
  {
    hide LocalOk, ConflictOk, Grows, Learned, ResolvedNames, ResolvedRecords, DropNotebook, Edited;
    var k' := Learned(k, r, a);
    LearnedGrows(k, r, a);
    ReplicaGrows(k, k', r.device, r);
    assert AllOk(k', r.device, r.records);
    if a.DropReferences? {
      DroppedSound(k', r.device, r.records, a.notebook, r.device, a.now);
    } else if a.Resolve? {
      LearnedShows(k, r, a);
      ResolveSound(k', r, a);
    } else {
      EditSound(k', r, a);
    }
  }

  lemma LearnedShows(k: Knowledge, r: Replica, a: Action)
    ensures Shows(r, a) <= Learned(k, r, a).shown
  {
  }

  /** The actions that only move statuses and versions, or copy rows of the server. */
  lemma ReadingActionOk(y: State, d: string, a: Action)
    requires SystemOk(y) && Enabled(y, d, a)
    requires a.Prepare? || a.Receive? || a.Refused? || a.PullRow? || a.PullDelete? || a.Repair?
    ensures ReplicaOk(Learned(y.known, y.devices[d], a), d, Act(y.devices[d], OWNER, a))
  {
    hide LocalOk, ConflictOk, Grows, Learned, AckOk, HistoryOk, Inv, PrepareAll, MarkAccepted, MergeOne, SaveConflict, RepairOne, Absorb, Reflects, Shows, Merged;
    var r := y.devices[d];
    var k' := Learned(y.known, r, a);
    assert ReplicaOk(y.known, d, r);
    LearnedGrows(y.known, r, a);
    ReplicaGrows(y.known, k', d, r);
    assert AllOk(k', d, r.records);
    match a
    case Prepare => PrepareOk(k', r);
    case Receive(ack) => LearnedTells(y.known, r, ack); ReceiveOk(k', r, ack);
    case Refused(c, id) =>
      ConflictGrows(y.known, k', c);
      if Absorbable(c, d) { AbsorbOk(k', r, c); } else { SaveOk(k', r, RefOf(OWNER, c.local), id, c); }
    case PullRow(remote, id) => {
      PulledOk(y, remote);
      RemoteGrows(y.known, k', remote);
      LearnedShows(y.known, r, a);
      MergeOk(k', r, remote, id);
    }
    case PullDelete(ref) => DeletedRecordsOk(k', r, ref);
    case Repair(id) => RepairOk(k', r, id);
  }

  lemma DeletedRecordsOk(k: Knowledge, r: Replica, ref: Ref)
    requires AllOk(k, r.device, r.records)
    ensures AllOk(k, r.device, DeleteRecords(r.records, [ref]))
  {
    hide LocalOk;
    assert [ref][..0] == [];
    assert DeleteRecords(r.records, []) == r.records;
  }

  lemma PulledOk(y: State, remote: Entity)
    requires SystemOk(y) && HistoryIs(y.known, RefOf(OWNER, remote), remote.Version(), Some(remote))
    ensures var at := (RefOf(OWNER, remote), remote.Version());
      && Reflects(y.known, at.0, at.1, remote)
      && at in y.known.author && y.known.author[at] == remote.DeviceId()
  {
    hide Inv, ReplicaOk, AckOk, ConflictOk, PreparedOk;
    assert WrittenOk(y.known, RefOf(OWNER, remote), remote.Version(), remote);
  }

  lemma RemoteGrows(k: Knowledge, k': Knowledge, e: Entity)
    requires Grows(k, k') && Reflects(k, RefOf(OWNER, e), e.Version(), e)
    requires var at := (RefOf(OWNER, e), e.Version()); at in k.author && k.author[at] == e.DeviceId()
    ensures Reflects(k', RefOf(OWNER, e), e.Version(), e)
    ensures var at := (RefOf(OWNER, e), e.Version()); at in k'.author && k'.author[at] == e.DeviceId()
  {
  }

  lemma NewlyPrepared(y: State, d: string, a: Action)
    requires SystemOk(y) && d in y.devices
    ensures forall d', c :: (d', c) in Learned(y.known, y.devices[d], a).prepared
              ==> PreparedOk(Learned(y.known, y.devices[d], a), d', c)
  {
    hide LocalOk, PreparedOk, Grows, HistoryOk, Inv, AckOk, ConflictOk, Outbox, Shows;
    var r := y.devices[d];
    var k' := Learned(y.known, r, a);
    LearnedGrows(y.known, r, a);
    RestGrows(y, k');
    assert ReplicaOk(k', d, r);
    PrepareOk(k', r);
  }

  lemma LearnedTells(k: Knowledge, r: Replica, ack: Ack)
    ensures (r.device, ack.ref, ack.version) in Learned(k, r, Receive(ack)).told
  {
  }

  /******* Where synced records come from *******/

  /** The remote record an action may put in place. */
  function Offered(r: Replica, a: Action): Option<Entity> {
    match a
    case PullRow(remote, _) => Some(remote)
    case Resolve(id, _, _, _, _) =>
      if id in r.conflicts && !r.conflicts[id].resolved then Some(r.conflicts[id].conflict.remote) else None
    case _ => None
  }

  /** A record is synced after an action because an answer matched it, because it was before, or as a row of the server. */
  ghost predicate SyncedFrom(r: Replica, a: Action, ref: Ref, l: Local) {
    || Answers(r, a, ref)
    || (ref in r.records && l == r.records[ref])
    || (Offered(r, a).Some? && RefOf(OWNER, Offered(r, a).value) == ref && IsRow(l, Offered(r, a).value))
  }

  /** Every synced record of `after` was in `before`, or is the remote record under its own reference. */
  ghost predicate OnlyFrom(before: map<Ref, Local>, remote: Entity, after: map<Ref, Local>) {
    forall ref :: ref in after && after[ref].status == Synced ==>
      (ref in before && after[ref] == before[ref]) || (ref == RefOf(OWNER, remote) && IsRow(after[ref], remote))
  }

  lemma MovedOnlyFrom(before: map<Ref, Local>, remote: Entity, records: map<Ref, Local>, from: string, to: string, device: string, t: Time)
    requires OnlyFrom(before, remote, records)
    ensures OnlyFrom(before, remote, MoveNotebook(records, from, to, device, t))
  {
    hide NoteNotebookIds, Replaced, SafePendingVersion, WithRefs;
  }

  lemma DroppedOnlyFrom(before: map<Ref, Local>, remote: Entity, records: map<Ref, Local>, notebook: string, device: string, t: Time)
    requires OnlyFrom(before, remote, records)
    ensures OnlyFrom(before, remote, DropNotebook(records, notebook, device, t))
  {
    hide NoteNotebookIds, Without, SafePendingVersion, WithRefs;
  }

  lemma ResolvedOnlyFrom(r: Replica, a: Action)
    requires a.Resolve? && Offered(r, a).Some?
    requires var c := r.conflicts[a.conflictId].conflict; c.reason != DuplicateName ==> RefOf(OWNER, c.remote) == RefOf(OWNER, c.local)
    ensures OnlyFrom(r.records, Offered(r, a).value, Act(r, OWNER, a).records)
  {
    hide MoveNotebook, DropNotebook, SelectsRemote, SafePendingVersion;
    var c := r.conflicts[a.conflictId].conflict;
    var ref, remoteRef := RefOf(OWNER, c.local), RefOf(OWNER, c.remote);
    var taken := r.records[remoteRef := FromRemote(c.remote)];
    if c.reason == DuplicateName {
      MovedOnlyFrom(r.records, c.remote, taken, c.local.Id(), c.remote.Id(), r.device, a.now);
      MovedOnlyFrom(r.records, c.remote, taken[ref.(id := a.copy) := CopyOf(c.local, a.copy, a.name, r.device, a.now)],
        c.local.Id(), a.copy, r.device, a.now);
    } else {
      MovedOnlyFrom(r.records, c.remote, taken[remoteRef.(id := a.copy) := CopyOf(c.local, a.copy, CopyTitle(c.local), r.device, a.now)],
        c.local.Id(), a.copy, r.device, a.now);
      DroppedOnlyFrom(r.records, c.remote, r.records[remoteRef := Resolved(c, a.choice, r.device)], c.remote.Id(), r.device, a.now);
    }
  }

  /** No action makes a record synced in any other way. */
  lemma SyncedComesFrom(r: Replica, a: Action, ref: Ref)
    requires forall id :: id in r.conflicts ==> (var c := r.conflicts[id].conflict;
               c.reason != DuplicateName ==> RefOf(OWNER, c.remote) == RefOf(OWNER, c.local))
    requires ref in Act(r, OWNER, a).records && Act(r, OWNER, a).records[ref].status == Synced
    ensures SyncedFrom(r, a, ref, Act(r, OWNER, a).records[ref])
  {
    hide SafePendingVersion, RecordsDiffer, NoteNotebookIds, Without, WithRefs, ResolvedNames, ResolvedRecords;
    match a
    case Resolve(id, _, _, _, _) => if Offered(r, a).Some? { ResolvedOnlyFrom(r, a); }
    case Receive(ack) =>
      assert [ack][..0] == [];
      assert MarkAccepted(r.records, []) == r.records;
    case PullDelete(x) =>
      assert [x][..0] == [];
      assert DeleteRecords(r.records, []) == r.records;
    case _ =>
  }

  /** The offered record is a version the server held. */
  lemma OfferedOk(y: State, d: string, a: Action)
    requires SystemOk(y) && Enabled(y, d, a) && Offered(y.devices[d], a).Some?
    ensures var e := Offered(y.devices[d], a).value; Reflects(y.known, RefOf(OWNER, e), e.Version(), e)
  {
    hide HistoryOk, HonestOk, ToldOk, AckOk, PreparedOk, Inv, LocalOk, Reflects;
    assert ReplicaOk(y.known, d, y.devices[d]);
    if a.PullRow? {
      PulledOk(y, a.remote);
    }
  }

  lemma MarkedIsMistaken(r: Replica, a: Action, mistaken: set<(string, Ref)>, ref: Ref)
    requires ref in Act(r, OWNER, a).records
    ensures (r.device, ref) in MistakenAfter(r, a, mistaken) <==> Marked(r, a, ref, mistaken)
  {
    hide Marked, Act;
    var at := (r.device, ref);
    if at in MistakenAfter(r, a, mistaken) {
      assert at.0 == r.device && at.1 == ref;
    }
  }

  lemma OthersStayMarked(r: Replica, a: Action, mistaken: set<(string, Ref)>, d: string, ref: Ref)
    requires d != r.device
    ensures (d, ref) in MistakenAfter(r, a, mistaken) <==> (d, ref) in mistaken
  {
    hide Marked, Act;
    assert (d, ref).0 == d;
  }

  /** A matched answer leaves a synced record, honest exactly if it still has the pushed text. */
  lemma MatchedHonest(k: Knowledge, d: string, l: Local, a: Ack)
    requires AckOk(k, d, a) && RefOf(OWNER, l.entity) == a.ref && StillMatches(l, a.pushed)
    ensures var l' := Accepted(l, a.pushed, a.version);
      l'.status == Synced && l'.base == a.version && (Reflects(k, a.ref, l'.base, l'.entity) <==> SameText(l.entity, a.pushed))
  {
  }

  lemma HonestAfter(y: State, d: string, a: Action, ref: Ref)
    requires SystemOk(y) && Enabled(y, d, a) && y.devices[d].device == d
    requires ref in Act(y.devices[d], OWNER, a).records
    ensures HonestAt(Acted(y, d, a), d, ref)
  {
    hide SystemOk, Act, MistakenAfter, Reflects, SameText, AckOk, StillMatches, Learned, Offered, Accepted;
    var r := y.devices[d];
    var l := Act(r, OWNER, a).records[ref];
    LearnedGrows(y.known, r, a);
    if l.status == Synced {
      MarkedIsMistaken(r, a, y.mistaken, ref);
      ConflictRefs(y, d);
      SyncedComesFrom(r, a, ref);
      ReflectsSame(y.known, Learned(y.known, r, a), ref, l.base, l.entity);
      if Answers(r, a, ref) {
        HonestAnswer(y, d, a, ref);
      } else if ref in r.records && l == r.records[ref] {
        HonestBefore(y, d, ref);
      } else {
        OfferedOk(y, d, a);
        ReflectsHistory(y.known, ref, l.base, l.entity);
      }
    }
  }

  lemma HonestBefore(y: State, d: string, ref: Ref)
    requires SystemOk(y) && d in y.devices && ref in y.devices[d].records
    ensures HonestAt(y, d, ref)
  {
  }

  lemma ReflectsHistory(k: Knowledge, ref: Ref, v: int, e: Entity)
    requires Reflects(k, ref, v, e)
    ensures (ref, v) in k.history
  {
  }

  lemma ReflectsSame(k: Knowledge, k': Knowledge, ref: Ref, v: int, e: Entity)
    requires k'.history == k.history
    ensures Reflects(k', ref, v, e) <==> Reflects(k, ref, v, e)
  {
  }

  lemma ConflictRefs(y: State, d: string)
    requires SystemOk(y) && d in y.devices
    ensures forall id :: id in y.devices[d].conflicts ==> (var c := y.devices[d].conflicts[id].conflict;
              c.reason != DuplicateName ==> RefOf(OWNER, c.remote) == RefOf(OWNER, c.local))
  {
    hide HistoryOk, HonestOk, ToldOk, AckOk, PreparedOk, Inv, LocalOk;
    assert ReplicaOk(y.known, d, y.devices[d]);
  }

  lemma HonestAnswer(y: State, d: string, a: Action, ref: Ref)
    requires SystemOk(y) && Enabled(y, d, a) && y.devices[d].device == d && Answers(y.devices[d], a, ref)
    ensures var r := y.devices[d];
      && ref in Act(r, OWNER, a).records && (ref, a.ack.version) in y.known.history
      && Act(r, OWNER, a).records[ref] == Accepted(r.records[ref], a.ack.pushed, a.ack.version)
      && Act(r, OWNER, a).records[ref].base == a.ack.version
      && (Reflects(y.known, ref, a.ack.version, Act(r, OWNER, a).records[ref].entity) <==> SameText(r.records[ref].entity, a.ack.pushed))
  {
    hide HistoryOk, HonestOk, ToldOk, PreparedOk, Inv, ConflictOk, BaseOk, Reflects, SameText;
    var r := y.devices[d];
    assert ReplicaOk(y.known, d, r);
    assert LocalOk(y.known, d, ref, r.records[ref]);
    assert AckOk(y.known, d, a.ack);
    assert [a.ack][..0] == [];
    assert MarkAccepted(r.records, []) == r.records;
    MatchedHonest(y.known, d, r.records[ref], a.ack);
  }

  lemma ActionKeepsHonest(y: State, d: string, a: Action)
    requires SystemOk(y) && Enabled(y, d, a) && y.devices[d].device == d
    ensures HonestOk(Acted(y, d, a))
  {
    var z := Acted(y, d, a);
    hide SystemOk, Act, MistakenAfter, Learned, HonestAt, Enabled;
    forall d', ref | d' in z.devices && ref in z.devices[d'].records ensures HonestAt(z, d', ref) {
      if d' == d {
        HonestAfter(y, d, a, ref);
      } else {
        HonestBefore(y, d', ref);
        HonestElsewhere(y, d, a, d', ref);
      }
    }
  }

  lemma HonestElsewhere(y: State, d: string, a: Action, d': string, ref: Ref)
    requires d in y.devices && d' in y.devices && d' != d && y.devices[d].device == d
    requires ref in y.devices[d'].records && HonestAt(y, d', ref)
    ensures HonestAt(Acted(y, d, a), d', ref)
  {
    hide Act, MistakenAfter, Learned, Reflects;
    var k' := Learned(y.known, y.devices[d], a);
    LearnedGrows(y.known, y.devices[d], a);
    OthersStayMarked(y.devices[d], a, y.mistaken, d', ref);
    var l := y.devices[d'].records[ref];
    ReflectsSame(y.known, k', ref, l.base, l.entity);
  }

  lemma ActionKeepsTold(y: State, d: string, a: Action)
    requires SystemOk(y) && Enabled(y, d, a) && y.devices[d].device == d
    ensures ToldOk(Acted(y, d, a))
  {
    hide Inv, HistoryOk, HonestOk, ReplicaOk, PreparedOk, AckOk, ConflictOk, Act, MistakenAfter, Shows, Prepares;
    var z := Acted(y, d, a);
    forall d', ref, v | (d', ref, v) in z.known.told ensures exists x :: (d', x) in z.acks && x.ref == ref && x.version == v {
      if (d', ref, v) !in y.known.told {
        assert (d, a.ack) in z.acks;
      }
    }
  }

  lemma ActionKeeps(y: State, d: string, a: Action)
    requires SystemOk(y) && Enabled(y, d, a)
    ensures SystemOk(Acted(y, d, a)) && Grows(y.known, Acted(y, d, a).known)
  {
    hide Inv, HistoryOk, HonestOk, ToldOk, ReplicaOk, PreparedOk, AckOk, ConflictOk, Grows, Learned, Act, OwnedOnly, MistakenAfter;
    var r := y.devices[d];
    var k' := Learned(y.known, r, a);
    LearnedGrows(y.known, r, a);
    RestGrows(y, k');
    NewlyPrepared(y, d, a);
    assert r.device == d by { ReplicaNamed(y, d); }
    if a.Edit? || a.Create? || a.Discard? || a.DropReferences? || a.Resolve? {
      WritingActionOk(y.known, r, a);
    } else {
      ReadingActionOk(y, d, a);
    }
    HistoryGrows(y.store, y.known, k');
    ActionKeepsHonest(y, d, a);
    ActionKeepsTold(y, d, a);
  }

  lemma ReplicaNamed(y: State, d: string)
    requires SystemOk(y) && d in y.devices
    ensures y.devices[d].device == d
  {
    assert ReplicaOk(y.known, d, y.devices[d]);
  }

  lemma HistoryGrows(s: Store, k: Knowledge, k': Knowledge)
    requires HistoryOk(s, k) && Grows(k, k') && k'.history == k.history && k'.author == k.author
    ensures HistoryOk(s, k')
  {
  }
}
