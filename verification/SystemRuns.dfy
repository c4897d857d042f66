/** The steps of an account, and what holds after every run of them. */
module SystemRuns {
  import opened Wrappers
  import opened SyncSpec
  import opened Tables
  import opened Push
  import opened Pull
  import opened Client
  import opened Conflicts
  import opened System
  import opened DeviceSteps
  import opened ServerRuns
  import Mirror
  import MirrorPage
  import MirrorRuns
  import MirrorSafety

  /******* A push *******/

  /** The changes of a request were all prepared by the device, at any time. */
  ghost predicate Sendable(k: Knowledge, device: string, request: Request) {
    && WellFormed(request) && UniqueIds(request.notebooks) && UniqueIds(request.notes)
    && forall c :: c in request.notebooks + request.notes ==> (device, c) in k.prepared
  }

  /** The acceptances of one list of changes. */
  function AcksOf(device: string, changes: seq<Change>, verdicts: seq<Verdict>): set<(string, Ack)>
    requires |verdicts| == |changes|
  {
    set i | 0 <= i < |changes| && verdicts[i].Accepted()
      :: (device, Ack(RefOf(OWNER, changes[i].record), changes[i].record, verdicts[i].entity.Version()))
  }

  function NoticesOf(device: string, verdicts: seq<Verdict>): set<(string, Conflict)> {
    set i | 0 <= i < |verdicts| && verdicts[i].Rejected?
      :: (device, Conflict(verdicts[i].reason, verdicts[i].local, verdicts[i].remote))
  }

  ghost function Pushed(y: State, device: string, scan: seq<Ref>, request: Request, now: Time): State
    requires WellFormed(request)
  {
    var o := Run(y.store, OWNER, scan, request, CLIENT, now);
    State(o.store, y.devices,
          y.acks + AcksOf(device, request.notebooks, o.notebooks) + AcksOf(device, request.notes, o.notes),
          y.notices + NoticesOf(device, o.notebooks) + NoticesOf(device, o.notes),
          Recorded(y.known, y.store, o.store),
          y.mistaken)
  }

  lemma PushStaysOwned(y: State, device: string, scan: seq<Ref>, request: Request, now: Time)
    requires SystemOk(y) && Sendable(y.known, device, request)
    ensures var t := Run(y.store, OWNER, scan, request, CLIENT, now).store;
      Inv(t) && Rises(y.store, t) && OwnedOnly(t)
  {
    hide Inv, Run, Rises, HistoryOk, ReplicaOk, AckOk, ConflictOk, WellFormed, Explains;
    var s := y.store;
    var t := Run(s, OWNER, scan, request, CLIENT, now).store;
    RunPhases(s, OWNER, scan, request, CLIENT, now);
    forall ref: Ref | ref in t.rows || ref in t.tombs ensures ref.owner == OWNER {
      PushedAt(y, device, scan, request, now, ref);
    }
  }

  /** What a push leaves at one entity: what was there, or a change its device prepared. */
  lemma PushedAt(y: State, device: string, scan: seq<Ref>, request: Request, now: Time, ref: Ref)
    requires SystemOk(y) && Sendable(y.known, device, request)
    ensures var t := Run(y.store, OWNER, scan, request, CLIENT, now).store;
      || SameAt(y.store, t, ref)
      || (ref.owner == OWNER && ref in t.rows && ref !in t.tombs
          && t.rows[ref].entity.DeviceId() == device
          && exists c :: (device, c) in y.known.prepared && Explains(y.store, t, OWNER, ref, c))
  {
    hide Run, Rises, HistoryOk, ReplicaOk, AckOk, ConflictOk, WellFormed;
    var s := y.store;
    var t := Run(s, OWNER, scan, request, CLIENT, now).store;
    RunPhases(s, OWNER, scan, request, CLIENT, now);
    PushNeverOverwritesBlindly(s, OWNER, scan, request, now, ref);
    if !SameAt(s, t, ref) {
      var c :| c in request.notebooks + request.notes && Explains(s, t, OWNER, ref, c);
      assert PreparedOk(y.known, device, c);
      assert EntityOk(t, ref);
    }
  }

  /** An acceptance names a version whose text is the one pushed. */
  lemma NewAckOk(k: Knowledge, device: string, t: Store, c: Change, v: Verdict)
    requires HistoryOk(t, k) && Inv(t) && (device, c) in k.prepared && PreparedOk(k, device, c)
    requires v.Accepted() && StoredAs(t, OWNER, c, v) && RefsWithin(v.entity, c.record)
    ensures AckOk(k, device, Ack(RefOf(OWNER, c.record), c.record, v.entity.Version()))
  {
    var ref := RefOf(OWNER, c.record);
    assert EntityOk(t, ref);
    assert HistoryIs(k, ref, Effective(t, ref), EntityAt(t, ref));
  }

  /** A notice shows a version of the history. */
  lemma NewNoticeOk(k: Knowledge, k': Knowledge, device: string, s: Store, t: Store, c: Change, v: Verdict)
    requires Grows(k, k') && HistoryOk(s, k) && HistoryOk(t, k') && Inv(s) && Inv(t)
    requires OwnedOnly(s) && OwnedOnly(t)
    requires PreparedOk(k, device, c) && v.Rejected? && Genuine(s, t, OWNER, c, v, CLIENT)
    ensures ConflictOk(k', Conflict(v.reason, v.local, v.remote))
  {
    var ref := RefOf(OWNER, c.record);
    if v.reason == DuplicateName {
      HeldIsHistory(k, k', s, t, v.remote);
    } else if ref in s.rows && v.remote == s.rows[ref].entity {
      RowIsHistory(k, s, ref);
    } else {
      TombIsHistory(k, s, ref, c.record);
    }
  }

  lemma RowIsHistory(k: Knowledge, s: Store, ref: Ref)
    requires HistoryOk(s, k) && Inv(s) && ref in s.rows && ref.owner == OWNER
    ensures var e := s.rows[ref].entity;
      && RefOf(OWNER, e) == ref && Reflects(k, ref, e.Version(), e)
      && (ref, e.Version()) in k.author && k.author[(ref, e.Version())] == e.DeviceId()
  {
    assert EntityOk(s, ref);
    assert HistoryIs(k, ref, Effective(s, ref), EntityAt(s, ref));
  }

  lemma TombIsHistory(k: Knowledge, s: Store, ref: Ref, e: Entity)
    requires HistoryOk(s, k) && Inv(s) && ref in s.tombs && ref.owner == OWNER && RefOf(OWNER, e) == ref
    ensures var remote := DeletedRemote(e, s.tombs[ref]);
      RefOf(OWNER, remote) == ref && Reflects(k, ref, remote.Version(), remote)
  {
    assert EntityOk(s, ref);
    assert HistoryIs(k, ref, Effective(s, ref), EntityAt(s, ref));
  }

  lemma HeldIsHistory(k: Knowledge, k': Knowledge, s: Store, t: Store, e: Entity)
    requires Grows(k, k') && HistoryOk(s, k) && HistoryOk(t, k') && Inv(s) && Inv(t) && Held(s, t, OWNER, e)
    ensures Reflects(k', RefOf(OWNER, e), e.Version(), e)
  {
    var ref := RefOf(OWNER, e);
    if ref in s.rows && s.rows[ref].entity == e {
      RowIsHistory(k, s, ref);
    } else {
      RowIsHistory(k', t, ref);
    }
  }

  /** What a push needs to have recorded for its answers to be sound. */
  ghost predicate Processed(y: State, device: string, scan: seq<Ref>, request: Request, now: Time) {
    && SystemOk(y) && Sendable(y.known, device, request)
    && var t := Run(y.store, OWNER, scan, request, CLIENT, now).store;
       var k' := Recorded(y.known, y.store, t);
       Inv(t) && HistoryOk(t, k') && Grows(y.known, k') && OwnedOnly(t)
  }

  lemma PushedNotebookAck(y: State, device: string, scan: seq<Ref>, request: Request, now: Time, i: nat)
    requires Processed(y, device, scan, request, now)
    requires i < |request.notebooks| && Run(y.store, OWNER, scan, request, CLIENT, now).notebooks[i].Accepted()
    ensures var o := Run(y.store, OWNER, scan, request, CLIENT, now); var c := request.notebooks[i];
      AckOk(Recorded(y.known, y.store, o.store), device, Ack(RefOf(OWNER, c.record), c.record, o.notebooks[i].entity.Version()))
  {
    hide Run, Recorded, Grows, HistoryOk, HonestOk, ToldOk, ReplicaOk, AckOk, ConflictOk, Inv, PreparedOk, WellFormed, OwnedOnly;
    var o := Run(y.store, OWNER, scan, request, CLIENT, now);
    var k' := Recorded(y.known, y.store, o.store);
    RecordedPrepared(y.known, y.store, o.store);
    assert request.notebooks[i] in request.notebooks + request.notes;
    AcceptedNotebookIsStored(y.store, OWNER, scan, request, CLIENT, now, i);
    PreparedGrows(y.known, k', device, request.notebooks[i]);
    SentNotebook(request, i);
    NewAckOk(k', device, o.store, request.notebooks[i], o.notebooks[i]);
  }

  lemma SentNotebook(request: Request, i: nat)
    requires WellFormed(request) && i < |request.notebooks|
    ensures request.notebooks[i].record.NotebookEntity?
  {
  }

  lemma PushedNoteAck(y: State, device: string, scan: seq<Ref>, request: Request, now: Time, i: nat)
    requires Processed(y, device, scan, request, now)
    requires i < |request.notes| && Run(y.store, OWNER, scan, request, CLIENT, now).notes[i].Accepted()
    ensures var o := Run(y.store, OWNER, scan, request, CLIENT, now); var c := request.notes[i];
      AckOk(Recorded(y.known, y.store, o.store), device, Ack(RefOf(OWNER, c.record), c.record, o.notes[i].entity.Version()))
  {
    hide Run, Recorded, Grows, HistoryOk, HonestOk, ToldOk, ReplicaOk, AckOk, ConflictOk, Inv, PreparedOk, StoredAs, WellFormed, OwnedOnly, RefsWithin;
    var o := Run(y.store, OWNER, scan, request, CLIENT, now);
    var k' := Recorded(y.known, y.store, o.store);
    RecordedPrepared(y.known, y.store, o.store);
    assert request.notes[i] in request.notebooks + request.notes;
    AcceptedNoteIsStored(y.store, OWNER, scan, request, CLIENT, now, i);
    PreparedGrows(y.known, k', device, request.notes[i]);
    AcceptedNoteRefs(y.store, scan, request, now, i);
    NewAckOk(k', device, o.store, request.notes[i], o.notes[i]);
  }

  lemma AcksFrom(k: Knowledge, device: string, changes: seq<Change>, verdicts: seq<Verdict>)
    requires |verdicts| == |changes|
    requires forall i :: 0 <= i < |changes| && verdicts[i].Accepted() ==>
      AckOk(k, device, Ack(RefOf(OWNER, changes[i].record), changes[i].record, verdicts[i].entity.Version()))
    ensures forall d, a :: (d, a) in AcksOf(device, changes, verdicts) ==> AckOk(k, d, a)
  {
    hide AckOk;
    forall d, a | (d, a) in AcksOf(device, changes, verdicts) ensures AckOk(k, d, a) {
      var i :| 0 <= i < |changes| && verdicts[i].Accepted() &&
        (d, a) == (device, Ack(RefOf(OWNER, changes[i].record), changes[i].record, verdicts[i].entity.Version()));
    }
  }

  lemma PushedAcks(y: State, device: string, scan: seq<Ref>, request: Request, now: Time)
    requires Processed(y, device, scan, request, now)
    ensures
      var o := Run(y.store, OWNER, scan, request, CLIENT, now);
      forall d, a :: (d, a) in AcksOf(device, request.notebooks, o.notebooks) + AcksOf(device, request.notes, o.notes)
        ==> AckOk(Recorded(y.known, y.store, o.store), d, a)
  {
    var o := Run(y.store, OWNER, scan, request, CLIENT, now);
    hide *;
    var k' := Recorded(y.known, y.store, o.store);
    forall i | 0 <= i < |request.notebooks| && o.notebooks[i].Accepted()
      ensures AckOk(k', device, Ack(RefOf(OWNER, request.notebooks[i].record), request.notebooks[i].record, o.notebooks[i].entity.Version()))
    {
      PushedNotebookAck(y, device, scan, request, now, i);
    }
    forall i | 0 <= i < |request.notes| && o.notes[i].Accepted()
      ensures AckOk(k', device, Ack(RefOf(OWNER, request.notes[i].record), request.notes[i].record, o.notes[i].entity.Version()))
    {
      PushedNoteAck(y, device, scan, request, now, i);
    }
    AcksFrom(k', device, request.notebooks, o.notebooks);
    AcksFrom(k', device, request.notes, o.notes);
  }

  lemma AcceptedNoteRefs(s: Store, scan: seq<Ref>, request: Request, now: Time, i: nat)
    requires WellFormed(request) && i < |request.notes|
    requires Run(s, OWNER, scan, request, CLIENT, now).notes[i].Accepted()
    ensures RefsWithin(Run(s, OWNER, scan, request, CLIENT, now).notes[i].entity, request.notes[i].record)
  {
    hide NoteVerdict;
    var o := Run(s, OWNER, scan, request, CLIENT, now);
    var mid := ApplyVerdicts(s, OWNER, o.notebooks, now);
    assert o.notes[i] == NoteVerdict(mid, OWNER, request.notes[i], CLIENT);
    AcceptedRefsWereSent(mid, OWNER, request.notes[i], CLIENT);
  }

  lemma PushedNotices(y: State, device: string, scan: seq<Ref>, request: Request, now: Time)
    requires Processed(y, device, scan, request, now)
    ensures
      var o := Run(y.store, OWNER, scan, request, CLIENT, now);
      forall d, c :: (d, c) in NoticesOf(device, o.notebooks) + NoticesOf(device, o.notes)
        ==> ConflictOk(Recorded(y.known, y.store, o.store), c)
  {
    hide Run, Recorded, Grows, HistoryOk, ReplicaOk, AckOk, ConflictOk, Inv, PreparedOk, Genuine, WellFormed, OwnedOnly;
    var o := Run(y.store, OWNER, scan, request, CLIENT, now);
    var k' := Recorded(y.known, y.store, o.store);
    ConflictsAreGenuine(y.store, OWNER, scan, request, CLIENT, now);
    RunPhases(y.store, OWNER, scan, request, CLIENT, now);
    forall d, c | (d, c) in NoticesOf(device, o.notebooks) ensures ConflictOk(k', c) {
      var i :| 0 <= i < |o.notebooks| && o.notebooks[i].Rejected? &&
        (d, c) == (device, Conflict(o.notebooks[i].reason, o.notebooks[i].local, o.notebooks[i].remote));
      assert request.notebooks[i] in request.notebooks + request.notes;
      NewNoticeOk(y.known, k', device, y.store, o.store, request.notebooks[i], o.notebooks[i]);
    }
    forall d, c | (d, c) in NoticesOf(device, o.notes) ensures ConflictOk(k', c) {
      var i :| 0 <= i < |o.notes| && o.notes[i].Rejected? &&
        (d, c) == (device, Conflict(o.notes[i].reason, o.notes[i].local, o.notes[i].remote));
      assert request.notes[i] in request.notebooks + request.notes;
      NewNoticeOk(y.known, k', device, y.store, o.store, request.notes[i], o.notes[i]);
    }
  }

  lemma PushKeeps(y: State, device: string, scan: seq<Ref>, request: Request, now: Time)
    requires SystemOk(y) && Sendable(y.known, device, request)
    ensures SystemOk(Pushed(y, device, scan, request, now)) && Grows(y.known, Pushed(y, device, scan, request, now).known)
  {
    hide Run, Recorded, Grows, HistoryOk, ReplicaOk, AckOk, ConflictOk, Inv, PreparedOk, WellFormed, OwnedOnly, AcksOf, NoticesOf, Rises;
    var t := Run(y.store, OWNER, scan, request, CLIENT, now).store;
    PushStaysOwned(y, device, scan, request, now);
    ServerKeeps(y, t);
    PushedAcks(y, device, scan, request, now);
    PushedNotices(y, device, scan, request, now);
    RecordedPrepared(y.known, y.store, t);
    var z := Pushed(y, device, scan, request, now);
    HonestGrows(y, z);
    assert ToldOk(z);
  }

  /******* Deletions, cleanups and compactions by the server *******/

  /** An operation on the account's own rows. */
  ghost predicate Maintains(y: State, op: Operation) {
    !op.PushOp? && (op.DeleteOp? ==> forall ref :: ref in op.refs ==> ref.owner == OWNER)
  }

  lemma MaintenanceOnlyBuries(s: Store, op: Operation, ref: Ref)
    requires Inv(s) && !op.PushOp?
    ensures SameAt(s, Do(s, op), ref) || ref !in Do(s, op).rows
    ensures !SameAt(s, Do(s, op), ref) ==> ref in s.rows || (op.DeleteOp? && ref in op.refs)
  {
    hide Inv;
    match op
    case DeleteOp(refs, now) => DeleteAllKeeps(s, refs, now);
    case CleanupOp(scan, cutoff, now, who) => CleanupRowsKeeps(s, ExpiredRefs(s, scan, cutoff, who), now);
    case CompactOp(who) =>
  }

  lemma MaintenanceKeeps(y: State, op: Operation)
    requires SystemOk(y) && Maintains(y, op)
    ensures var t := Do(y.store, op);
      SystemOk(y.(store := t, known := Recorded(y.known, y.store, t))) && Grows(y.known, Recorded(y.known, y.store, t))
  {
    hide Inv, HistoryOk, ReplicaOk, PreparedOk, AckOk, ConflictOk, Grows, Recorded, Do, Rises;
    var t := Do(y.store, op);
    DoKeeps(y.store, op);
    forall ref: Ref | ref in t.rows || ref in t.tombs ensures ref.owner == OWNER {
      MaintenanceOnlyBuries(y.store, op, ref);
    }
    ServerKeeps(y, t);
  }

  /******* Pages of the mirror *******/

  /** The server's tables after one page of a mirror with any other database, in either direction, however the page ends. */
  ghost function MirroredWith(s: Store, other: Store, asTarget: bool, cursor: nat, outbound: nat, mirrored: set<Ref>, turn: Mirror.Turn): Store
    requires Inv(s) && Inv(other) && turn.limit >= 1
  {
    MirrorPage.InvRows(s);
    MirrorPage.InvRows(other);
    if asTarget then MirrorPage.Ended(Mirror.Pass(other, s, cursor, mirrored, true), OWNER, outbound, turn).1
    else MirrorPage.Ended(Mirror.Pass(s, other, cursor, mirrored, true), OWNER, outbound, turn).0
  }

  lemma MirrorKeeps(y: State, other: Store, asTarget: bool, cursor: nat, outbound: nat, mirrored: set<Ref>, turn: Mirror.Turn)
    requires SystemOk(y) && Inv(other) && turn.limit >= 1
    ensures var t := MirroredWith(y.store, other, asTarget, cursor, outbound, mirrored, turn);
      SystemOk(y.(store := t, known := Recorded(y.known, y.store, t))) && Grows(y.known, Recorded(y.known, y.store, t))
  {
    hide Inv, HistoryOk, HonestOk, ToldOk, ReplicaOk, PreparedOk, AckOk, ConflictOk, Grows, Recorded, Rises, MirrorPage.Ended, MirrorPage.Begin, Evolves;
    MirrorPage.InvRows(y.store);
    MirrorPage.InvRows(other);
    var p := if asTarget then Mirror.Pass(other, y.store, cursor, mirrored, true) else Mirror.Pass(y.store, other, cursor, mirrored, true);
    MirrorPage.EndKeeps(p, OWNER, outbound, turn);
    MirrorRuns.PageNeverLowers(p, OWNER, outbound, turn);
    var t := MirroredWith(y.store, other, asTarget, cursor, outbound, mirrored, turn);
    forall ref: Ref | ref in t.rows || ref in t.tombs ensures ref.owner == OWNER {
      MirrorSafety.OthersUntouched(p, OWNER, outbound, turn, ref);
      assert ref.owner != OWNER ==> RowAt(y.store, ref) == RowAt(t, ref) && TombAt(y.store, ref) == TombAt(t, ref);
    }
    ServerKeeps(y, t);
  }

  /******* Runs *******/

  datatype Step =
    | Join(device: string)
    | Does(device: string, action: Action)
    | Push(device: string, scan: seq<Ref>, request: Request, now: Time)
    | Maintain(op: Operation)
    | Mirrored(other: Store, asTarget: bool, cursor: nat, outbound: nat, mirrored: set<Ref>, turn: Mirror.Turn)

  ghost predicate CanTake(y: State, step: Step) {
    match step
    case Join(d) => d !in y.devices
    case Does(d, a) => Enabled(y, d, a)
    case Push(d, scan, request, now) => Sendable(y.known, d, request)
    case Maintain(op) => Maintains(y, op)
    case Mirrored(other, _, _, _, _, turn) => Inv(y.store) && Inv(other) && turn.limit >= 1
  }

  /** One step; a step that cannot be taken leaves the account as it is. */
  ghost function Next(y: State, step: Step): State {
    if !CanTake(y, step) then y
    else match step
      case Join(d) => y.(devices := y.devices[d := Replica(d, map[], map[])])
      case Does(d, a) => Acted(y, d, a)
      case Push(d, scan, request, now) => Pushed(y, d, scan, request, now)
      case Maintain(op) =>
        y.(store := Do(y.store, op), known := Recorded(y.known, y.store, Do(y.store, op)))
      case Mirrored(other, asTarget, cursor, outbound, mirrored, turn) =>
        var t := MirroredWith(y.store, other, asTarget, cursor, outbound, mirrored, turn);
        y.(store := t, known := Recorded(y.known, y.store, t))
  }

  const START := State(EMPTY, map[], {}, {}, Knowledge(map[], map[], {}, {}, {}), {})

  ghost function From(y: State, steps: seq<Step>): State {
    if steps == [] then y
    else Next(From(y, steps[..|steps| - 1]), steps[|steps| - 1])
  }

  /** The account after a run. */
  ghost function After(steps: seq<Step>): State { From(START, steps) }

  lemma StartOk()
    ensures SystemOk(START)
  {
    EmptyOk();
  }

  lemma NextKeeps(y: State, step: Step)
    requires SystemOk(y)
    ensures SystemOk(Next(y, step)) && Grows(y.known, Next(y, step).known)
  {
    hide Inv, HistoryOk, ReplicaOk, PreparedOk, AckOk, ConflictOk, Recorded, Do, Pushed, Acted, Sendable, Enabled, Maintains, MirroredWith;
    if CanTake(y, step) {
      match step
      case Join(d) => NewReplicaOk(y.known, d);
      case Does(d, a) => ActionKeeps(y, d, a);
      case Push(d, scan, request, now) => PushKeeps(y, d, scan, request, now);
      case Maintain(op) => MaintenanceKeeps(y, op);
      case Mirrored(other, asTarget, cursor, outbound, mirrored, turn) => MirrorKeeps(y, other, asTarget, cursor, outbound, mirrored, turn);
    }
  }

  lemma NewReplicaOk(k: Knowledge, d: string)
    ensures ReplicaOk(k, d, Replica(d, map[], map[]))
  {
  }

  lemma {:induction false} StaysOk(y: State, steps: seq<Step>)
    requires SystemOk(y)
    ensures SystemOk(From(y, steps))
  {
    if steps != [] {
      StaysOk(y, steps[..|steps| - 1]);
      NextKeeps(From(y, steps[..|steps| - 1]), steps[|steps| - 1]);
    }
  }

  lemma RunsStayOk(steps: seq<Step>)
    ensures SystemOk(After(steps))
  {
    StartOk();
    StaysOk(START, steps);
  }

  /******* Main results *******/

  /**
   No silent overwrite. After any run, pages of a mirror with any other database included, when a push changes what the
   server holds for a note or notebook at version v (a live row or a tombstone), the pushing device had merged version v,
   written it (v bears its name), resolved a conflict that showed it, or was told by the server that v holds what it had
   pushed; or the push leaves the content as it was.
   */
  lemma NoSilentOverwrite(steps: seq<Step>, device: string, scan: seq<Ref>, request: Request, now: Time, ref: Ref)
    requires var y := After(steps); Sendable(y.known, device, request) && Effective(y.store, ref) > 0
    ensures var y := After(steps); var t := Next(y, Push(device, scan, request, now)).store;
      || SameAt(y.store, t, ref)
      || Knows(y.known, device, ref, Effective(y.store, ref))
      || (ref in y.store.rows && ref in t.rows && !RecordsDiffer(y.store.rows[ref].entity, t.rows[ref].entity))
  {
    hide Run, HistoryOk, ReplicaOk, AckOk, ConflictOk, HonestOk, ToldOk, Knows, RecordsDiffer, From;
    RunsStayOk(steps);
    var y := After(steps);
    PushedAt(y, device, scan, request, now, ref);
    var t := Run(y.store, OWNER, scan, request, CLIENT, now).store;
    if !SameAt(y.store, t, ref) {
      var c :| (device, c) in y.known.prepared && Explains(y.store, t, OWNER, ref, c);
      assert PreparedOk(y.known, device, c);
      if ref in y.store.rows {
        RecordsDifferIffContentDiffers(y.store.rows[ref].entity, t.rows[ref].entity);
      } else {
        assert ref in y.store.tombs;
      }
    }
  }

  /**
   What being told means: the server answered a push of this very device with that version, the version holds the text
   that was pushed, and no notebook reference but the pushed ones; and that text is word for word what a device wrote.
   */
  lemma ToldMeansSame(steps: seq<Step>, device: string, ref: Ref, v: int)
    requires (device, ref, v) in After(steps).known.told
    ensures var y := After(steps);
      exists a :: (device, a) in y.acks && a.ref == ref && a.version == v && AckOk(y.known, device, a)
    ensures var k := After(steps).known;
      && (ref, v) in k.history && k.history[(ref, v)].Some?
      && (Traced(k, ref, k.history[(ref, v)].value) || exists i :: Brought(steps, i, ref, v))
  {
    RunsStayOk(steps);
    hide From, ReplicaOk, HistoryOk, HonestOk, ConflictOk, PreparedOk, Inv, Traced, Brought, CoreOf, RefsWithin;
    var y := After(steps);
    var a :| (device, a) in y.acks && a.ref == ref && a.version == v;
    assert AckOk(y.known, device, a);
    HistoryIsWritten(steps, ref, v);
  }

  /**
   Synced means synced. After any run, a record that a device shows as synced is the server's record of its
   lastSyncedVersion (the same text, favourite, trash and deletion state, references aside, or the deletion), if and
   only if it is not marked: its last answer did not find another text under the version and time that were pushed.
   */
  lemma SyncedMeansSynced(steps: seq<Step>, device: string, ref: Ref)
    requires var y := After(steps);
      device in y.devices && ref in y.devices[device].records && y.devices[device].records[ref].status == Synced
    ensures var y := After(steps); var l := y.devices[device].records[ref];
      1 <= l.base <= Effective(y.store, ref)
      && (Reflects(y.known, ref, l.base, l.entity) <==> (device, ref) !in y.mistaken)
  {
    RunsStayOk(steps);
    hide From, ReplicaOk, AckOk, ConflictOk, Reflects;
    var y := After(steps);
    assert HonestAt(y, device, ref);
  }

  /**
   The one step that marks: an answer that is matched by version and time to a record with another text. After any run,
   a matched answer leaves an honest record exactly if the record still has the text that was pushed.
   */
  lemma AnswerHonestIff(steps: seq<Step>, device: string, ack: Ack)
    requires var y := After(steps);
      device in y.devices && (device, ack) in y.acks && Answers(y.devices[device], Receive(ack), ack.ref)
    ensures
      var y := After(steps); var z := After(steps + [Does(device, Receive(ack))]);
      && device in z.devices && ack.ref in z.devices[device].records
      && z.devices[device].records[ack.ref].status == Synced && z.devices[device].records[ack.ref].base == ack.version
      && (Reflects(z.known, ack.ref, ack.version, z.devices[device].records[ack.ref].entity)
          <==> SameText(y.devices[device].records[ack.ref].entity, ack.pushed))
  {
    RunsStayOk(steps);
    OneMore(START, steps, Does(device, Receive(ack)));
    hide From, SameText, SystemOk, StillMatches, Reflects;
    var y := After(steps);
    DeviceNamed(y, device);
    HonestAnswer(y, device, Receive(ack), ack.ref);
    var z := Next(y, Does(device, Receive(ack)));
    ReflectsSame(y.known, z.known, ack.ref, ack.version, z.devices[device].records[ack.ref].entity);
    MatchedIsSynced(y.devices[device].records[ack.ref], ack);
  }

  lemma MatchedIsSynced(l: Local, a: Ack)
    requires StillMatches(l, a.pushed)
    ensures Accepted(l, a.pushed, a.version).status == Synced
  {
  }

  lemma DeviceNamed(y: State, d: string)
    requires SystemOk(y) && d in y.devices
    ensures y.devices[d].device == d
  {
    ReplicaNamed(y, d);
  }

  lemma OneMore(y: State, steps: seq<Step>, step: Step)
    ensures From(y, steps + [step]) == Next(From(y, steps), step)
  {
    assert (steps + [step])[..|steps|] == steps;
  }

  /******* Nothing is made up *******/

  /** The version of the history is word for word a change that some device prepared, under its name and time. */
  ghost predicate Traced(k: Knowledge, ref: Ref, e: Entity) {
    exists d, c :: (d, c) in k.prepared && Carries(ref, e, d, c)
  }

  ghost predicate Carries(ref: Ref, e: Entity, d: string, c: Change) {
    && RefOf(OWNER, c.record) == ref && WordingOf(e) == WordingOf(c.record) && RefsWithin(e, c.record)
    && e.DeviceId() == d && e.UpdatedAt() == c.record.UpdatedAt()
  }

  /** Step `i` of the run is a page of a mirror that brought the version. */
  ghost predicate Brought(steps: seq<Step>, i: nat, ref: Ref, v: int) {
    i < |steps| && steps[i].Mirrored?
    && var before, after := After(steps[..i]).store, Next(After(steps[..i]), steps[i]).store;
       !SameAt(before, after, ref) && ref in after.rows && after.rows[ref].entity.Version() == v
  }

  lemma TracedGrows(k: Knowledge, k': Knowledge, ref: Ref, e: Entity)
    requires Traced(k, ref, e) && k.prepared <= k'.prepared
    ensures Traced(k', ref, e)
  {
    hide Carries;
    var d, c :| (d, c) in k.prepared && Carries(ref, e, d, c);
    assert (d, c) in k'.prepared;
  }

  lemma BroughtBefore(front: seq<Step>, last: Step, i: nat, ref: Ref, v: int)
    requires Brought(front, i, ref, v)
    ensures Brought(front + [last], i, ref, v)
  {
    hide Next, From;
    assert (front + [last])[..i] == front[..i];
  }

  /** A version that a push adds to the history is one its device prepared. */
  lemma PushedIsTraced(y: State, device: string, scan: seq<Ref>, request: Request, now: Time, ref: Ref, v: int)
    requires SystemOk(y) && Sendable(y.known, device, request)
    requires var k' := Pushed(y, device, scan, request, now).known;
      (ref, v) !in y.known.history && (ref, v) in k'.history && k'.history[(ref, v)].Some?
    ensures var k' := Pushed(y, device, scan, request, now).known; Traced(k', ref, k'.history[(ref, v)].value)
  {
    hide Run, Recorded, SystemOk, Explains, WellFormed;
    var s := y.store;
    var t := Run(s, OWNER, scan, request, CLIENT, now).store;
    RecordedVersion(y.known, s, t, ref, v);
    RecordedPrepared(y.known, s, t);
    PushedAt(y, device, scan, request, now, ref);
    ChangedIsNotSame(s, t, ref);
    var c :| (device, c) in y.known.prepared && Explains(s, t, OWNER, ref, c);
    ExplainsCarries(s, t, ref, c, device);
  }

  lemma ExplainsCarries(s: Store, t: Store, ref: Ref, c: Change, device: string)
    requires Explains(s, t, OWNER, ref, c) && t.rows[ref].entity.DeviceId() == device
    ensures Carries(ref, t.rows[ref].entity, device, c)
  {
  }

  lemma ChangedIsNotSame(s: Store, t: Store, ref: Ref)
    requires ref in Changed(s, t)
    ensures !SameAt(s, t, ref)
  {
  }

  /** The other steps add only deletions to the history, and a mirror page what it brings. */
  lemma OtherStepsBring(y: State, step: Step, ref: Ref, v: int)
    requires SystemOk(y) && CanTake(y, step) && !step.Push?
    requires var k' := Next(y, step).known; (ref, v) !in y.known.history && (ref, v) in k'.history && k'.history[(ref, v)].Some?
    ensures step.Mirrored? && !SameAt(y.store, Next(y, step).store, ref)
    ensures ref in Next(y, step).store.rows && Next(y, step).store.rows[ref].entity.Version() == v
  {
    hide Recorded, SystemOk, Do, MirroredWith, Act, MistakenAfter, Inv, Shows, Prepares;
    var t := Next(y, step).store;
    if step.Does? {
      LearnedGrows(y.known, y.devices[step.device], step.action);
    } else if step.Maintain? || step.Mirrored? {
      RecordedVersion(y.known, y.store, t, ref, v);
      ChangedIsNotSame(y.store, t, ref);
      StoreSound(y);
      if step.Maintain? {
        MaintenanceOnlyBuries(y.store, step.op, ref);
      }
    }
  }

  lemma StoreSound(y: State)
    requires SystemOk(y)
    ensures Inv(y.store)
  {
  }

  /**
   Nothing is made up. After any run every version of a note or notebook that the server ever held is word for word what
   some device prepared to push, under its name and time and with none but its references, or a mirror page brought it.
   */
  lemma {:induction false} HistoryIsWritten(steps: seq<Step>, ref: Ref, v: int)
    requires (ref, v) in After(steps).known.history && After(steps).known.history[(ref, v)].Some?
    ensures var k := After(steps).known;
      Traced(k, ref, k.history[(ref, v)].value) || exists i :: Brought(steps, i, ref, v)
  {
    hide Next, SystemOk, Grows, CanTake, Traced, Brought;
    if steps != [] {
      var front, last := steps[..|steps| - 1], steps[|steps| - 1];
      assert steps == front + [last];
      var y := After(front);
      RunsStayOk(front);
      NextKeeps(y, last);
      if (ref, v) in y.known.history {
        HistoryStays(y.known, After(steps).known, ref, v);
        HistoryIsWritten(front, ref, v);
        if Traced(y.known, ref, y.known.history[(ref, v)].value) {
          TracedGrows(y.known, After(steps).known, ref, y.known.history[(ref, v)].value);
        } else {
          var i :| Brought(front, i, ref, v);
          BroughtBefore(front, last, i, ref, v);
        }
      } else {
        NewIsWritten(front, last, ref, v);
      }
    }
  }

  lemma HistoryStays(k: Knowledge, k': Knowledge, ref: Ref, v: int)
    requires Grows(k, k') && (ref, v) in k.history
    ensures (ref, v) in k'.history && k'.history[(ref, v)] == k.history[(ref, v)] && k.prepared <= k'.prepared
  {
  }

  lemma NewIsWritten(front: seq<Step>, last: Step, ref: Ref, v: int)
    requires SystemOk(After(front)) && (ref, v) !in After(front).known.history
    requires var k' := Next(After(front), last).known; (ref, v) in k'.history && k'.history[(ref, v)].Some?
    ensures var k' := Next(After(front), last).known;
      Traced(k', ref, k'.history[(ref, v)].value) || Brought(front + [last], |front|, ref, v)
  {
    hide SystemOk, From, Traced, Pushed, SameAt;
    var y := After(front);
    assert (front + [last])[..|front|] == front;
    if CanTake(y, last) {
      if last.Push? {
        PushedIsTraced(y, last.device, last.scan, last.request, last.now, ref, v);
      } else {
        OtherStepsBring(y, last, ref, v);
      }
    }
  }

  /** Every base a device pushes on is a version it knows: nothing it has not seen is ever passed off as the base. */
  lemma BasesAreKnown(steps: seq<Step>, device: string, ref: Ref)
    requires device in After(steps).devices && ref in After(steps).devices[device].records
    ensures var y := After(steps); BaseOk(y.known, device, ref, y.devices[device].records[ref].base)
  {
    RunsStayOk(steps);
    hide From;
    var y := After(steps);
    assert ReplicaOk(y.known, device, y.devices[device]);
    assert LocalOk(y.known, device, ref, y.devices[device].records[ref]);
  }
}
