/**
 A run in which a record ends up synced with a text the server does not hold. The user settles two conflicts of one note
 for the local side: each choice puts the note back to one version above the server's, with the time of the text chosen.
 When both texts carry the same time, the answer to the push of the first is taken for the answer to the second.
 */
module SameTime {
  import opened Wrappers
  import opened SyncSpec
  import opened Tables
  import opened Push
  import opened Client
  import opened System
  import opened DeviceSteps
  import opened SystemRuns
  import opened ServerRuns

  /******* Runs of one device, one note at a time *******/

  ghost predicate Shape(y: State, s: Store, r: Replica, prepared: set<Change>, acks: set<Ack>, notices: set<Conflict>) {
    && y.store == s && r.device == "d" && y.devices == map["d" := r]
    && (forall c :: c in prepared ==> ("d", c) in y.known.prepared)
    && (forall a :: a in acks ==> ("d", a) in y.acks)
    && (forall c :: c in notices ==> ("d", c) in y.notices)
  }

  lemma ActShape(y: State, s: Store, r: Replica, p: set<Change>, acks: set<Ack>, notices: set<Conflict>, a: Action)
    requires Shape(y, s, r, p, acks, notices) && (a.Receive? ==> a.ack in acks) && (a.Refused? ==> a.conflict in notices)
    requires !a.PullRow? && !a.PullDelete?
    ensures Shape(Next(y, Does("d", a)), s, Act(r, OWNER, a), p + (if a.Prepare? then Outbox(r.records, "d") else {}), acks, notices)
  {
    hide Act, MistakenAfter, Outbox, Shows;
    ActKeepsName(r, a);
    var z := Next(y, Does("d", a));
    assert z.devices == map["d" := Act(r, OWNER, a)];
  }

  lemma ActKeepsName(r: Replica, a: Action)
    ensures Act(r, OWNER, a).device == r.device
  {
    hide RecordsDiffer, PrepareAll, MarkAccepted, DeleteRecords, DropNotebook, ResolvedNames, ResolvedRecords;
  }

  /** A push of one note. */
  lemma PushShape(y: State, s: Store, r: Replica, p: set<Change>, acks: set<Ack>, notices: set<Conflict>, c: Change)
    requires Shape(y, s, r, p, acks, notices) && c in p && c.record.NoteEntity? && c.record.Version() >= 1
    ensures var v := NoteVerdict(s, OWNER, c, CLIENT); var ref := RefOf(OWNER, c.record);
      Shape(Next(y, Push("d", [], Request([], [c]), 1)), if v.Written? then Put(s, RefOf(OWNER, v.entity), v.entity, 1) else s, r, p,
        acks + (if v.Accepted() then {Ack(ref, c.record, v.entity.Version())} else {}),
        notices + (if v.Rejected? then {Conflict(v.reason, v.local, v.remote)} else {}))
  {
    hide NoteVerdict, Recorded, Put;
    var request := Request([], [c]);
    assert Sendable(y.known, "d", request);
    var v := NoteVerdict(s, OWNER, c, CLIENT);
    RunOfOneNote(s, OWNER, [], c, CLIENT, 1);
    var o := Run(s, OWNER, [], request, CLIENT, 1);
    if v.Accepted() {
      assert o.notes[0].Accepted();
    } else {
      assert o.notes[0].Rejected?;
    }
    RecordedPrepared(y.known, s, o.store);
  }

  /** A note without notebooks stays as it is. */
  lemma NoRefs(s: Store, n: Note)
    requires n.notebookIds == [] && n.notebookId == None
    ensures Syncable(s, OWNER, n) == n && PendingIds(n) == []
  {
    NothingToDrop(s, OWNER, n);
    NormalizedStay([]);
  }

  /******* The run *******/

  const NOTE := Ref(OWNER, NoteKind, "n")

  /** The note with the given title and version, always of time 1. */
  function N(title: string, version: int): Entity {
    NoteEntity(Note("n", title, "", None, None, [], None, 1, 1, None, None, false, "d", version))
  }

  const FIRST := Change(N("o", 1), 0)
  const SECOND := Change(N("o", 3), 2)
  const TOMB := Tombstone(9, "d", 2)
  const GONE := Conflict(DeletedRemotely, N("o", 1), DeletedRemote(N("o", 1), TOMB))
  const ANSWER := Ack(NOTE, N("o", 3), 3)

  const RUN := [
    Join("d"),
    Does("d", Create(N("o", 1), 1)),
    Does("d", Prepare),
    Push("d", [], Request([], [FIRST]), 1),
    Maintain(DeleteOp([NOTE], 9)),
    Push("d", [], Request([], [FIRST]), 1),
    Does("d", Refused(GONE, 0)),
    Does("d", Edit(NOTE, N("z", 1), 1)),
    Does("d", Refused(GONE, 1)),
    Does("d", Resolve(0, KeepLocal, "", "", 1)),
    Does("d", Prepare),
    Push("d", [], Request([], [SECOND]), 1),
    Does("d", Resolve(1, KeepLocal, "", "", 1)),
    Does("d", Receive(ANSWER))]

  ghost function At(k: nat): State
    requires k <= |RUN|
  {
    From(START, RUN[..k])
  }

  lemma AtNext(k: nat)
    requires k < |RUN|
    ensures At(k + 1) == Next(At(k), RUN[k])
  {
    assert RUN[..k + 1][..k] == RUN[..k];
  }

  function Holding(e: Entity, status: Status, base: int, conflicts: map<nat, Stored>): Replica {
    Replica("d", map[NOTE := Local(e, status, base)], conflicts)
  }

  const STORED := Put(EMPTY, NOTE, N("o", 1), 1)
  const BURIED := DeleteOne(STORED, NOTE, 9)
  const REVIVED := Put(BURIED, NOTE, N("o", 3), 1)

  lemma TitlesDiffer()
    ensures CoreOf(N("o", 1)) != CoreOf(N("z", 1))
  {
    assert "o"[0] != "z"[0];
    assert KeyOfText(None, "o") == ByText("o") && KeyOfText(None, "z") == ByText("z");
  }

  lemma Buried()
    ensures BURIED.rows == map[] && BURIED.tombs == map[NOTE := TOMB] && STORED.rows == map[NOTE := Row(N("o", 1), None)]
    ensures DeleteAll(STORED, [NOTE], 9) == BURIED
  {
    assert LatestOp(STORED.log, NOTE) == Some(Upsert);
    assert [NOTE][..0] == [];
    assert DeleteAll(STORED, [], 9) == STORED;
  }

  /** Created and pushed. */
  lemma CreatedAndPushed()
    ensures Shape(At(4), STORED, Holding(N("o", 1), Pending, 0, map[]), {FIRST}, {Ack(NOTE, N("o", 1), 1)}, {})
  {
    hide Run, Put, Do, Act, Next, NoteVerdict;
    var r := Holding(N("o", 1), Pending, 0, map[]);
    AtNext(0); AtNext(1); AtNext(2); AtNext(3);
    assert At(0) == START;
    Joined(At(0));
    Created();
    PreparedFirst();
    FirstVerdicts();
    ActShape(At(1), EMPTY, Replica("d", map[], map[]), {}, {}, {}, Create(N("o", 1), 1));
    ActShape(At(2), EMPTY, r, {}, {}, {}, Prepare);
    PushShape(At(3), EMPTY, r, {FIRST}, {}, {}, FIRST);
  }

  /** Deleted on the server, and refused when it is pushed again. */
  lemma FirstPart()
    ensures Shape(At(6), BURIED, Holding(N("o", 1), Pending, 0, map[]), {FIRST}, {}, {GONE})
  {
    hide Run, Put, Do, DeleteAll, Act, Next, DeleteOne, NoteVerdict;
    var r := Holding(N("o", 1), Pending, 0, map[]);
    AtNext(4); AtNext(5);
    CreatedAndPushed();
    FirstVerdicts();
    Deleted(At(4), r);
    PushShape(At(5), BURIED, r, {FIRST}, {}, {}, FIRST);
  }

  lemma Joined(y: State)
    requires y == START
    ensures Shape(Next(y, Join("d")), EMPTY, Replica("d", map[], map[]), {}, {}, {})
  {
  }

  lemma Created()
    ensures Act(Replica("d", map[], map[]), OWNER, Create(N("o", 1), 1)) == Holding(N("o", 1), Pending, 0, map[])
  {
  }

  lemma PreparedFirst()
    ensures var r := Holding(N("o", 1), Pending, 0, map[]); Act(r, OWNER, Prepare) == r && Outbox(r.records, "d") == {FIRST}
  {
    NoRefs(EMPTY, N("o", 1).note);
    var r := Holding(N("o", 1), Pending, 0, map[]);
    assert Prepared(r.records[NOTE], "d") == r.records[NOTE];
    assert PrepareAll(r.records, "d") == r.records;
    assert FIRST in Outbox(r.records, "d");
  }

  lemma FirstVerdicts()
    ensures NoteVerdict(EMPTY, OWNER, FIRST, CLIENT) == Written(N("o", 1))
    ensures NoteVerdict(BURIED, OWNER, FIRST, CLIENT) == Rejected(DeletedRemotely, N("o", 1), DeletedRemote(N("o", 1), TOMB))
  {
    hide Syncable;
    NoRefs(EMPTY, N("o", 1).note);
    NoRefs(BURIED, N("o", 1).note);
    Buried();
  }

  lemma Deleted(y: State, r: Replica)
    requires Shape(y, STORED, r, {FIRST}, {Ack(NOTE, N("o", 1), 1)}, {})
    ensures Shape(Next(y, Maintain(DeleteOp([NOTE], 9))), BURIED, r, {FIRST}, {}, {})
  {
    hide Recorded, DeleteAll, MirroredWith, Pushed, Acted, Sendable, Enabled;
    var op := DeleteOp([NOTE], 9);
    Buried();
    assert Do(STORED, op) == BURIED;
    RecordedPrepared(y.known, STORED, BURIED);
    assert NOTE.owner == OWNER;
  }

  const ONE := map[0 := Stored(GONE, false)]
  const BOTH := map[0 := Stored(GONE, false), 1 := Stored(GONE.(local := N("z", 2)), false)]
  const HALF := map[0 := Stored(GONE, true), 1 := Stored(GONE.(local := N("z", 2)), false)]
  const DONE := map[0 := Stored(GONE, true), 1 := Stored(GONE.(local := N("z", 2)), true)]

  /** Two conflicts about it, with two texts of the same time. */
  lemma SecondPart()
    ensures Shape(At(9), BURIED, Holding(N("z", 2), InConflict, 0, BOTH), {FIRST}, {}, {GONE})
  {
    hide Act, Next;
    FirstPart();
    AtNext(6); AtNext(7); AtNext(8);
    Refusals();
    hide *;
    ActShape(At(6), BURIED, Holding(N("o", 1), Pending, 0, map[]), {FIRST}, {}, {GONE}, Refused(GONE, 0));
    ActShape(At(7), BURIED, Holding(N("o", 1), InConflict, 0, ONE), {FIRST}, {}, {GONE}, Edit(NOTE, N("z", 1), 1));
    ActShape(At(8), BURIED, Holding(N("z", 2), Pending, 0, ONE), {FIRST}, {}, {GONE}, Refused(GONE, 1));
  }

  /** The older text is chosen and pushed. */
  lemma ThirdPart()
    ensures Shape(At(12), REVIVED, Holding(N("o", 3), Pending, 2, HALF), {FIRST, SECOND}, {ANSWER}, {GONE})
  {
    hide Run, Put, Act, Next, DeleteOne, NoteVerdict;
    SecondPart();
    AtNext(9); AtNext(10); AtNext(11);
    FirstChoice();
    PreparedSecond(HALF);
    SecondVerdict();
    ActShape(At(9), BURIED, Holding(N("z", 2), InConflict, 0, BOTH), {FIRST}, {}, {GONE}, Resolve(0, KeepLocal, "", "", 1));
    ActShape(At(10), BURIED, Holding(N("o", 3), Pending, 2, HALF), {FIRST}, {}, {GONE}, Prepare);
    PushShape(At(11), BURIED, Holding(N("o", 3), Pending, 2, HALF), {FIRST, SECOND}, {}, {GONE}, SECOND);
  }

  lemma Refusals()
    ensures Act(Holding(N("o", 1), Pending, 0, map[]), OWNER, Refused(GONE, 0)) == Holding(N("o", 1), InConflict, 0, ONE)
    ensures Act(Holding(N("o", 1), InConflict, 0, ONE), OWNER, Edit(NOTE, N("z", 1), 1)) == Holding(N("z", 2), Pending, 0, ONE)
    ensures Act(Holding(N("z", 2), Pending, 0, ONE), OWNER, Refused(GONE, 1)) == Holding(N("z", 2), InConflict, 0, BOTH)
  {
  }

  /** A note kept as the local side of a conflict comes back one version above the server's. */
  lemma KeepLocalOfNote(r: Replica, id: nat)
    requires id in r.conflicts && !r.conflicts[id].resolved
    requires var c := r.conflicts[id].conflict; c.reason == DeletedRemotely && c.remote.NoteEntity?
    ensures var c := r.conflicts[id].conflict;
      Act(r, OWNER, Resolve(id, KeepLocal, "", "", 1)) == Replica(r.device,
        r.records[RefOf(OWNER, c.remote) := Local(WithDevice(c.local, r.device).WithVersion(c.remote.Version() + 1), Pending, c.remote.Version())],
        r.conflicts[id := Stored(c, true)])
  {
    hide MoveNotebook, DropNotebook, ResolvedNames;
  }

  lemma FirstChoice()
    ensures Act(Holding(N("z", 2), InConflict, 0, BOTH), OWNER, Resolve(0, KeepLocal, "", "", 1)) == Holding(N("o", 3), Pending, 2, HALF)
  {
    hide Act;
    KeepLocalOfNote(Holding(N("z", 2), InConflict, 0, BOTH), 0);
  }

  lemma SecondChoice()
    ensures Act(Holding(N("o", 3), Pending, 2, HALF), OWNER, Resolve(1, KeepLocal, "", "", 1)) == Holding(N("z", 3), Pending, 2, DONE)
  {
    hide Act;
    KeepLocalOfNote(Holding(N("o", 3), Pending, 2, HALF), 1);
  }

  lemma PreparedSecond(k: map<nat, Stored>)
    ensures var r := Holding(N("o", 3), Pending, 2, k); Act(r, OWNER, Prepare) == r && Outbox(r.records, "d") == {SECOND}
  {
    NoRefs(EMPTY, N("o", 3).note);
    var r := Holding(N("o", 3), Pending, 2, k);
    assert Prepared(r.records[NOTE], "d") == r.records[NOTE];
    assert PrepareAll(r.records, "d") == r.records;
    assert SECOND in Outbox(r.records, "d");
  }

  lemma SecondVerdict()
    ensures NoteVerdict(BURIED, OWNER, SECOND, CLIENT) == Written(N("o", 3))
  {
    hide Syncable;
    NoRefs(BURIED, N("o", 3).note);
    Buried();
  }

  /** While that push is answered, the newer text is chosen; the answer is taken for its own. */
  lemma LastPart()
    ensures var y := At(14);
      && y.store == REVIVED && "d" in y.devices && NOTE in y.devices["d"].records
      && y.devices["d"].records[NOTE] == Local(N("z", 3), Synced, 3)
  {
    hide Run, Put, Act, Next, DeleteOne;
    ThirdPart();
    AtNext(12); AtNext(13);
    SecondChoice();
    ActShape(At(12), REVIVED, Holding(N("o", 3), Pending, 2, HALF), {FIRST, SECOND}, {ANSWER}, {GONE}, Resolve(1, KeepLocal, "", "", 1));
    ActShape(At(13), REVIVED, Holding(N("z", 3), Pending, 2, DONE), {FIRST, SECOND}, {ANSWER}, {GONE}, Receive(ANSWER));
    AnswerTaken(DONE);
  }

  lemma AnswerTaken(k: map<nat, Stored>)
    ensures Act(Holding(N("z", 3), Pending, 2, k), OWNER, Receive(ANSWER)) == Holding(N("z", 3), Synced, 3, k)
  {
    assert [ANSWER][..0] == [];
    assert MarkAccepted(map[NOTE := Local(N("z", 3), Pending, 2)], []) == map[NOTE := Local(N("z", 3), Pending, 2)];
  }

  /**
   So there is a run after which a device shows a note as synced with a text that no server version holds: the user's
   last choice is neither pending nor on the server.
   */
  lemma SameTimeHidesAnEdit()
    ensures exists steps, device, ref :: var y := After(steps);
      && device in y.devices && ref in y.devices[device].records && ref in y.store.rows
      && y.devices[device].records[ref].status == Synced
      && y.devices[device].records[ref].base == y.store.rows[ref].entity.Version()
      && CoreOf(y.devices[device].records[ref].entity) != CoreOf(y.store.rows[ref].entity)
  {
    hide From, DeleteOne;
    LastPart();
    TitlesDiffer();
    assert RUN[..14] == RUN;
    var y := After(RUN);
    assert y.store.rows[NOTE].entity == N("o", 3);
    assert CoreOf(N("o", 3)) == CoreOf(N("o", 1)) && CoreOf(N("z", 3)) == CoreOf(N("z", 1));
    assert CoreOf(y.devices["d"].records[NOTE].entity) != CoreOf(y.store.rows[NOTE].entity);
  }
}
