/** An edit made while its record is on its way to the server is not lost, whatever else happens before the answer. */
module EditInFlight {
  import opened Wrappers
  import opened SyncSpec
  import opened Tables
  import opened Push
  import opened Client
  import opened System
  import opened DeviceSteps
  import opened SystemRuns
  import opened ServerRuns

  /******* One action *******/

  /** The conflict's two sides and the copy a resolution would create. */
  predicate Concerns(c: Conflict, copy: string, ref: Ref) {
    var local, remote := RefOf(OWNER, c.local), RefOf(OWNER, c.remote);
    ref == local || ref == remote || ref == local.(id := copy) || ref == remote.(id := copy)
  }

  /** The user gives the record up or settles a conflict about it, or another answer about it arrives. */
  predicate Disturbs(r: Replica, a: Action, ref: Ref) {
    match a
    case Discard(x) => x == ref
    case Receive(ack) => ack.ref == ref
    case Resolve(id, _, copy, _, _) => id in r.conflicts && Concerns(r.conflicts[id].conflict, copy, ref)
    case Prepare => ref in r.records && LocalOnlyDeleted(r.records[ref])
    case _ => false
  }

  /** The text the user wrote last, if any. */
  ghost function Wrote(a: Action, ref: Ref, before: Option<Wording>): Option<Wording> {
    if a.Edit? && a.ref == ref && RefOf(OWNER, a.content) == ref then Some(WordingOf(a.content)) else before
  }

  /** The record waits for the server or the user, no older than what was pushed; newer and as written once edited. */
  ghost predicate InFlight(r: Replica, ref: Ref, pushed: Entity, text: Option<Wording>) {
    && ref in r.records
    && Flying(r.records[ref], ref, pushed, text)
  }

  ghost predicate Flying(l: Local, ref: Ref, pushed: Entity, text: Option<Wording>) {
    && (l.status == Pending || l.status == InConflict)
    && RefOf(OWNER, l.entity) == ref
    && l.entity.Version() >= pushed.Version()
    && (text.Some? ==> l.entity.Version() > pushed.Version() && WordingOf(l.entity) == text.value)
  }

  lemma RewrittenFlies(l: Local, ids: seq<string>, device: string, t: Time, ref: Ref, pushed: Entity, text: Option<Wording>)
    requires Flying(l, ref, pushed, text) && l.status == Pending
    ensures Flying(Rewritten(l, ids, device, t), ref, pushed, text)
  {
  }

  lemma MovedFlies(records: map<Ref, Local>, from: string, to: string, device: string, t: Time, ref: Ref, pushed: Entity, text: Option<Wording>)
    requires ref in records && Flying(records[ref], ref, pushed, text)
    ensures var moved := MoveNotebook(records, from, to, device, t); ref in moved && Flying(moved[ref], ref, pushed, text)
  {
    hide Rewritten, NoteNotebookIds, Replaced, Flying;
    var l := records[ref];
    if Relinked(l, from, to, device, t) != l {
      FlyingIsPending(l, ref, pushed, text);
      RewrittenFlies(l, Replaced(NoteNotebookIds(l.entity.note), from, to), device, t, ref, pushed, text);
    }
  }

  lemma DroppedFlies(records: map<Ref, Local>, notebook: string, device: string, t: Time, ref: Ref, pushed: Entity, text: Option<Wording>)
    requires ref in records && Flying(records[ref], ref, pushed, text)
    ensures var dropped := DropNotebook(records, notebook, device, t); ref in dropped && Flying(dropped[ref], ref, pushed, text)
  {
    hide Rewritten, NoteNotebookIds, Without, Flying;
    var l := records[ref];
    if Unlinked(l, notebook, device, t) != l {
      FlyingIsPending(l, ref, pushed, text);
      RewrittenFlies(l, Without(NoteNotebookIds(l.entity.note), notebook), device, t, ref, pushed, text);
    }
  }

  lemma FlyingIsPending(l: Local, ref: Ref, pushed: Entity, text: Option<Wording>)
    requires Flying(l, ref, pushed, text) && CanRewrite(l)
    ensures l.status == Pending
  {
  }

  lemma PreparedFlies(l: Local, device: string, ref: Ref, pushed: Entity, text: Option<Wording>)
    requires Flying(l, ref, pushed, text) && l.status == Pending
    ensures Flying(Prepared(l, device), ref, pushed, text)
  {
    hide PendingIds;
  }

  lemma ResolvedElsewhere(r: Replica, a: Action, ref: Ref, pushed: Entity, text: Option<Wording>)
    requires a.Resolve? && InFlight(r, ref, pushed, text) && !Disturbs(r, a, ref)
    ensures InFlight(Act(r, OWNER, a), ref, pushed, text)
  {
    hide MoveNotebook, DropNotebook, Flying, SelectsRemote, Resolved;
    if a.conflictId in r.conflicts && !r.conflicts[a.conflictId].resolved {
      var c := r.conflicts[a.conflictId].conflict;
      var local, remote := RefOf(OWNER, c.local), RefOf(OWNER, c.remote);
      var taken := r.records[remote := FromRemote(c.remote)];
      if c.reason == DuplicateName {
        MovedFlies(taken, c.local.Id(), c.remote.Id(), r.device, a.now, ref, pushed, text);
        MovedFlies(taken[local.(id := a.copy) := CopyOf(c.local, a.copy, a.name, r.device, a.now)], c.local.Id(), a.copy,
          r.device, a.now, ref, pushed, text);
      } else {
        MovedFlies(taken[remote.(id := a.copy) := CopyOf(c.local, a.copy, CopyTitle(c.local), r.device, a.now)], c.local.Id(), a.copy,
          r.device, a.now, ref, pushed, text);
        DroppedFlies(r.records[remote := Resolved(c, a.choice, r.device)], c.remote.Id(), r.device, a.now, ref, pushed, text);
      }
    }
  }

  /** No action but those that disturb it takes the record out of flight, and an edit renews its text. */
  lemma ActionKeepsFlight(r: Replica, a: Action, ref: Ref, pushed: Entity, text: Option<Wording>)
    requires InFlight(r, ref, pushed, text) && !Disturbs(r, a, ref)
    ensures InFlight(Act(r, OWNER, a), ref, pushed, Wrote(a, ref, text))
  {
    hide RecordsDiffer, DropNotebook, MoveNotebook, ResolvedNames, ResolvedRecords, PendingIds, Prepared;
    match a
    case Resolve(_, _, _, _, _) => ResolvedElsewhere(r, a, ref, pushed, text);
    case DropReferences(notebook, now) => DroppedFlies(r.records, notebook, r.device, now, ref, pushed, text);
    case Prepare =>
      if r.records[ref].status == Pending { PreparedFlies(r.records[ref], r.device, ref, pushed, text); }
    case Receive(ack) =>
      assert [ack][..0] == [];
      assert MarkAccepted(r.records, []) == r.records;
    case PullDelete(x) =>
      assert [x][..0] == [];
      assert DeleteRecords(r.records, []) == r.records;
    case _ =>
  }

  /******* A run *******/

  /** No step of the run that the device takes disturbs the record. */
  ghost predicate Undisturbed(y: State, steps: seq<Step>, device: string, ref: Ref) {
    steps == [] ||
      (var front, last := steps[..|steps| - 1], steps[|steps| - 1];
       && Undisturbed(y, front, device, ref)
       && (last.Does? && last.device == device ==>
             device in From(y, front).devices && !Disturbs(From(y, front).devices[device], last.action, ref)))
  }

  /** The text of the last edit of the record in the run. */
  ghost function LastText(steps: seq<Step>, device: string, ref: Ref): Option<Wording> {
    if steps == [] then None
    else
      var before := LastText(steps[..|steps| - 1], device, ref);
      var last := steps[|steps| - 1];
      if last.Does? && last.device == device then Wrote(last.action, ref, before) else before
  }

  lemma StepKeepsFlight(y: State, step: Step, device: string, ref: Ref, pushed: Entity, text: Option<Wording>)
    requires device in y.devices && InFlight(y.devices[device], ref, pushed, text)
    requires step.Does? && step.device == device ==> !Disturbs(y.devices[device], step.action, ref)
    ensures var z := Next(y, step);
      device in z.devices &&
      InFlight(z.devices[device], ref, pushed, if step.Does? && step.device == device then Wrote(step.action, ref, text) else text)
  {
    hide InFlight, Act, Learned, MistakenAfter, Run, Recorded, ServerRuns.Do, Sendable, Maintains, MirroredWith;
    if step.Does? && step.device == device {
      ActionKeepsFlight(y.devices[device], step.action, ref, pushed, text);
    }
  }

  lemma {:induction false} RunKeepsFlight(y: State, steps: seq<Step>, device: string, ref: Ref, pushed: Entity)
    requires device in y.devices && InFlight(y.devices[device], ref, pushed, None)
    requires Undisturbed(y, steps, device, ref)
    ensures var z := From(y, steps);
      device in z.devices && InFlight(z.devices[device], ref, pushed, LastText(steps, device, ref))
  {
    hide InFlight, Disturbs, Next, Wrote;
    if steps != [] {
      var front, last := steps[..|steps| - 1], steps[|steps| - 1];
      RunKeepsFlight(y, front, device, ref, pushed);
      StepKeepsFlight(From(y, front), last, device, ref, pushed, LastText(front, device, ref));
    }
  }

  /** A sync that begins takes the record as it is into the outbox. */
  lemma PrepareFlies(y: State, device: string, ref: Ref)
    requires SystemOk(y) && device in y.devices && ref in y.devices[device].records
    requires var l := y.devices[device].records[ref]; l.status == Pending && !LocalOnlyDeleted(l)
    ensures var z := Next(y, Does(device, Prepare)); var pushed := Prepared(y.devices[device].records[ref], device).entity;
      device in z.devices && InFlight(z.devices[device], ref, pushed, None)
  {
    hide HistoryOk, HonestOk, ToldOk, AckOk, PreparedOk, ConflictOk, Inv, Learned, MistakenAfter, BaseOk, PendingIds;
    assert ReplicaOk(y.known, device, y.devices[device]);
    assert LocalOk(y.known, device, ref, y.devices[device].records[ref]);
  }

  /******* What the server does with it *******/

  /** How the server judges a pending record pushed on its own, after whatever notebooks were judged before it. */
  function VerdictOn(s: Store, scan: seq<Ref>, acc: Acc, l: Local, device: string): Verdict {
    var c := Change(Prepared(l, device).entity, SafeBase(l));
    if c.record.NoteEntity? then NoteVerdict(s, OWNER, c, CLIENT) else NotebookVerdict(s, OWNER, scan, acc, c, CLIENT)
  }

  /**
   A pending record whose base is what the server holds is accepted with its text, because nobody else wrote; only a
   notebook can be refused, and only for the name of another one.
   */
  lemma CurrentBaseIsAccepted(y: State, device: string, ref: Ref, scan: seq<Ref>, acc: Acc)
    requires SystemOk(y) && device in y.devices && ref in y.devices[device].records
    requires SafeBase(y.devices[device].records[ref]) == Effective(y.store, ref)
    ensures
      var l := y.devices[device].records[ref];
      var v := VerdictOn(y.store, scan, acc, l, device);
      && (v.Written? ==> WordingOf(v.entity) == WordingOf(l.entity)) && (v.Kept? ==> CoreOf(v.entity) == CoreOf(l.entity))
      && (v.Rejected? ==> ref.kind == NotebookKind && v.reason == DuplicateName)
  {
    hide HistoryOk, HonestOk, ToldOk, AckOk, PreparedOk, ConflictOk, BaseOk, PendingIds, RecordsDiffer, Duplicate, Syncable;
    assert ReplicaOk(y.known, device, y.devices[device]);
    var l := y.devices[device].records[ref];
    assert LocalOk(y.known, device, ref, l);
    var c := Change(Prepared(l, device).entity, SafeBase(l));
    assert EntityOk(y.store, ref);
    if c.record.NoteEntity? {
      NoteVerdictLawful(y.store, OWNER, c, CLIENT);
    } else {
      NotebookVerdictLawful(y.store, OWNER, scan, acc, c, CLIENT);
    }
  }

  lemma PendingOnCurrentBaseIsAccepted(steps: seq<Step>, device: string, ref: Ref, scan: seq<Ref>, acc: Acc)
    requires var y := After(steps);
      && device in y.devices && ref in y.devices[device].records
      && SafeBase(y.devices[device].records[ref]) == Effective(y.store, ref)
    ensures
      var y := After(steps);
      var l := y.devices[device].records[ref];
      var v := VerdictOn(y.store, scan, acc, l, device);
      && (v.Written? ==> WordingOf(v.entity) == WordingOf(l.entity)) && (v.Kept? ==> CoreOf(v.entity) == CoreOf(l.entity))
      && (v.Rejected? ==> ref.kind == NotebookKind && v.reason == DuplicateName)
  {
    hide From;
    RunsStayOk(steps);
    CurrentBaseIsAccepted(After(steps), device, ref, scan, acc);
  }

  /** The state in which an answer to the record pushed after `before` arrives. */
  ghost function Meanwhile(before: seq<Step>, device: string, run: seq<Step>): State {
    From(Next(After(before), Does(device, Prepare)), run)
  }

  /** `ack` answers the change of the record that was ready when the sync began. */
  ghost predicate AnswersSync(before: seq<Step>, device: string, run: seq<Step>, ref: Ref, ack: Ack) {
    var y := After(before);
    && device in y.devices && ref in y.devices[device].records
    && y.devices[device].records[ref].status == Pending && !LocalOnlyDeleted(y.devices[device].records[ref])
    && (device, ack) in Meanwhile(before, device, run).acks && ack.ref == ref
    && ack.pushed == Prepared(y.devices[device].records[ref], device).entity
  }

  /**
   An edit in flight survives. After any run a sync begins with the record pending; then anything happens to the account,
   in any number of steps, among them an edit of the record and no step that disturbs it; then the answer arrives. The
   record is pending with the text of its last edit, on the accepted version, and if the server still holds that version
   it accepts the edit (a notebook unless its name is taken).
   */
  lemma EditInFlightSurvives(before: seq<Step>, device: string, run: seq<Step>, ref: Ref, ack: Ack, scan: seq<Ref>, acc: Acc)
    requires AnswersSync(before, device, run, ref, ack)
    requires Undisturbed(Next(After(before), Does(device, Prepare)), run, device, ref) && LastText(run, device, ref).Some?
    ensures
      var z := Next(Meanwhile(before, device, run), Does(device, Receive(ack)));
      && device in z.devices && ref in z.devices[device].records
      && var l := z.devices[device].records[ref];
      && l.status == Pending && l.base == ack.version && WordingOf(l.entity) == LastText(run, device, ref).value
      && (Effective(z.store, ref) == ack.version ==>
            var v := VerdictOn(z.store, scan, acc, l, device);
            && (v.Written? ==> WordingOf(v.entity) == LastText(run, device, ref).value) && (v.Kept? ==> CoreOf(v.entity) == CoreOf(l.entity))
            && (v.Rejected? ==> ref.kind == NotebookKind && v.reason == DuplicateName))
  {
    hide SystemOk, From, Next, InFlight, Undisturbed, LastText, VerdictOn;
    RunsStayOk(before);
    var y := After(before);
    PrepareFlies(y, device, ref);
    NextKeeps(y, Does(device, Prepare));
    var mid := Next(y, Does(device, Prepare));
    var pushed := Prepared(y.devices[device].records[ref], device).entity;
    RunKeepsFlight(mid, run, device, ref, pushed);
    StaysOk(mid, run);
    var x := From(mid, run);
    NextKeeps(x, Does(device, Receive(ack)));
    AnswerLands(x, device, ref, ack, LastText(run, device, ref).value);
    var z := Next(x, Does(device, Receive(ack)));
    if Effective(z.store, ref) == ack.version {
      CurrentBaseIsAccepted(z, device, ref, scan, acc);
    }
  }

  /** The answer finds another version than the pushed one. */
  lemma AnswerLands(x: State, device: string, ref: Ref, ack: Ack, text: Wording)
    requires SystemOk(x) && device in x.devices && (device, ack) in x.acks && ack.ref == ref
    requires InFlight(x.devices[device], ref, ack.pushed, Some(text))
    ensures var z := Next(x, Does(device, Receive(ack)));
      && device in z.devices && ref in z.devices[device].records && z.devices[device].records[ref].status == Pending
      && z.devices[device].records[ref].base == ack.version && WordingOf(z.devices[device].records[ref].entity) == text
      && SafeBase(z.devices[device].records[ref]) == ack.version
  {
    hide HonestOk, ToldOk, ReplicaOk, PreparedOk, ConflictOk, Inv, Learned, MistakenAfter, WrittenOk;
    var r := x.devices[device];
    assert AckOk(x.known, device, ack);
    assert [ack][..0] == [];
    assert MarkAccepted(r.records, []) == r.records;
  }
}
