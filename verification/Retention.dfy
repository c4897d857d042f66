/** How long a row has been in the trash: what `retention_started_at` means over a whole run, and whom the cleanup takes. */
module Retention {
  import opened Wrappers
  import opened SyncSpec
  import opened Tables
  import opened Push
  import opened Pull
  import opened ServerRuns

  /******* One operation *******/

  /** A note in the trash, or a deleted notebook. */
  predicate Trashed(e: Entity) {
    match e
    case NoteEntity(n) => n.trashedAt.Some?
    case NotebookEntity(n) => n.deletedAt.Some?
  }

  predicate InTrash(s: Store, ref: Ref) { ref in s.rows && Trashed(s.rows[ref].entity) }

  /** A row is left alone, or written: outside the trash it has no time, in the trash the time it had there, else now. */
  ghost predicate Kept(before: Option<Row>, after: Option<Row>, now: Time) {
    after.Some? && after != before ==>
      after.value.retention ==
        if !Trashed(after.value.entity) then None
        else if before.Some? && Trashed(before.value.entity) && before.value.retention.Some? then before.value.retention
        else Some(now)
  }

  lemma PutKeepsRetention(s: Store, ref: Ref, e: Entity, now: Time)
    ensures Kept(RowAt(s, ref), RowAt(Put(s, ref, e, now), ref), now)
  {
  }

  lemma {:induction false} VerdictsKeep(s: Store, owner: string, changes: seq<Change>, verdicts: seq<Verdict>, options: Options, now: Time, ref: Ref)
    requires Inv(s) && |verdicts| == |changes| && DistinctRefs(owner, changes) && LawfulAll(s, owner, changes, verdicts, options)
    requires forall c :: c in changes ==> c.record.Version() >= 1
    ensures Kept(RowAt(s, ref), RowAt(ApplyVerdicts(s, owner, verdicts, now), ref), now)
  {
    hide Lawful, LawfulAll, DistinctRefs, Inv, Effect, Put, Kept;
    if changes == [] {
      Unwritten(RowAt(s, ref), now);
    } else {
      var n := |changes| - 1;
      FrontAndLast(s, owner, changes, verdicts, options);
      VerdictsKeep(s, owner, changes[..n], verdicts[..n], options, now, ref);
      ApplyEffect(s, owner, changes[..n], verdicts[..n], options, now);
      var mid := ApplyVerdicts(s, owner, verdicts[..n], now);
      LastUntouched(s, mid, owner, changes, verdicts);
      if verdicts[n].Written? {
        SameRef(s, owner, changes[n], verdicts[n], options);
        PutKeepsRetention(mid, RefOf(owner, verdicts[n].entity), verdicts[n].entity, now);
        PutElsewhere(mid, RefOf(owner, verdicts[n].entity), verdicts[n].entity, now, ref);
      }
    }
  }

  lemma Unwritten(row: Option<Row>, now: Time)
    ensures Kept(row, row, now)
  {
  }

  lemma SameRef(s: Store, owner: string, c: Change, v: Verdict, options: Options)
    requires Lawful(s, owner, c, v, options) && v.Written?
    ensures RefOf(owner, v.entity) == RefOf(owner, c.record)
  {
  }

  lemma PutElsewhere(s: Store, ref: Ref, e: Entity, now: Time, other: Ref)
    ensures other != ref ==> RowAt(Put(s, ref, e, now), other) == RowAt(s, other)
  {
  }

  /** A push writes each row at most once. */
  lemma PushKeepsRetention(s: Store, owner: string, scan: seq<Ref>, request: Request, options: Options, now: Time, ref: Ref)
    requires Inv(s) && WellFormed(request) && UniqueIds(request.notebooks) && UniqueIds(request.notes)
    ensures Kept(RowAt(s, ref), RowAt(Run(s, owner, scan, request, options, now).store, ref), now)
  {
    hide Inv, LawfulAll, Effect, Kept, Evolves, Rises, NotebookVerdicts, NoteVerdicts;
    var o := Run(s, owner, scan, request, options, now);
    var mid := ApplyVerdicts(s, owner, o.notebooks, now);
    RunPhases(s, owner, scan, request, options, now);
    UniqueIdsDistinct(owner, request.notebooks);
    UniqueIdsDistinct(owner, request.notes);
    Positive(request);
    VerdictsKeep(s, owner, request.notebooks, o.notebooks, options, now, ref);
    VerdictsKeep(mid, owner, request.notes, o.notes, options, now, ref);
    if ref.kind == NotebookKind {
      PhasesApart(mid, o.store, owner, request.notes, o.notes, ref);
      assert RowAt(mid, ref) == RowAt(o.store, ref);
    } else {
      PhasesApart(s, mid, owner, request.notebooks, o.notebooks, ref);
      assert RowAt(s, ref) == RowAt(mid, ref);
    }
  }

  lemma Positive(request: Request)
    requires WellFormed(request)
    ensures forall c :: c in request.notebooks || c in request.notes ==> c.record.Version() >= 1
  {
    forall c | c in request.notebooks || c in request.notes ensures c.record.Version() >= 1 {
      assert c in request.notebooks + request.notes;
    }
  }

  /** Only a push writes a row. */
  lemma OtherOperationsKeep(s: Store, op: Operation, ref: Ref)
    requires Inv(s) && Valid(op) && !op.PushOp?
    ensures RowAt(Do(s, op), ref) == RowAt(s, ref) || RowAt(Do(s, op), ref) == None
  {
    hide Inv;
    match op
    case DeleteOp(refs, now) => DeleteAllKeeps(s, refs, now);
      assert ref !in refs ==> SameAt(s, Do(s, op), ref);
    case CleanupOp(scan, cutoff, now, who) =>
      CleanupRowsKeeps(s, ExpiredRefs(s, scan, cutoff, who), now);
      assert ref !in ExpiredRefs(s, scan, cutoff, who) ==> SameAt(s, Do(s, op), ref);
    case CompactOp(who) =>
  }

  /******* Whole runs *******/

  lemma Front(ops: seq<Operation>, i: nat)
    requires AllValid(ops) && i <= |ops|
    ensures AllValid(ops[..i])
  {
    forall op | op in ops[..i] ensures op in ops {}
  }

  /** The tables after the first `i` operations of the run. */
  ghost function At(ops: seq<Operation>, i: nat): Store
    requires AllValid(ops) && i <= |ops|
  {
    Front(ops, i);
    DoAll(EMPTY, ops[..i])
  }

  /** Operation `i`, at the given time, put the row into the trash, and it has been there ever since. */
  ghost predicate TrashedBy(ops: seq<Operation>, i: nat, ref: Ref, time: Time)
    requires AllValid(ops)
  {
    && i < |ops| && ops[i].PushOp? && ops[i].now == time && !InTrash(At(ops, i), ref)
    && forall j :: i < j <= |ops| ==> InTrash(At(ops, j), ref)
  }

  /** The row's time is that of the push that put it into the trash; outside the trash it has none. */
  ghost predicate Timed(ops: seq<Operation>, t: Store, ref: Ref)
    requires AllValid(ops)
  {
    ref in t.rows ==>
      match t.rows[ref].retention
      case None => !Trashed(t.rows[ref].entity)
      case Some(time) => Trashed(t.rows[ref].entity) && exists i: nat :: TrashedBy(ops, i, ref, time)
  }

  lemma AtFront(front: seq<Operation>, last: Operation, i: nat)
    requires AllValid(front + [last]) && i <= |front|
    ensures AllValid(front) && At(front + [last], i) == At(front, i)
  {
    forall op | op in front ensures op in front + [last] {}
    assert (front + [last])[..i] == front[..i];
  }

  lemma AtLast(front: seq<Operation>, last: Operation)
    requires AllValid(front + [last])
    ensures AllValid(front) && Valid(last) && At(front + [last], |front| + 1) == Do(At(front, |front|), last)
  {
    forall op | op in front ensures op in front + [last] {}
    assert last in front + [last];
    assert (front + [last])[..|front| + 1] == front + [last] && (front + [last])[..|front|] == front && front[..|front|] == front;
  }

  lemma StillTrashed(front: seq<Operation>, last: Operation, i: nat, ref: Ref, time: Time)
    requires AllValid(front + [last]) && AllValid(front) && TrashedBy(front, i, ref, time) && InTrash(At(front + [last], |front| + 1), ref)
    ensures TrashedBy(front + [last], i, ref, time)
  {
    hide At, InTrash;
    forall j | i <= j <= |front| ensures At(front + [last], j) == At(front, j) { AtFront(front, last, j); }
  }

  lemma NewlyTrashed(front: seq<Operation>, last: Operation, ref: Ref)
    requires AllValid(front + [last]) && AllValid(front) && last.PushOp?
    requires !InTrash(At(front, |front|), ref) && InTrash(At(front + [last], |front| + 1), ref)
    ensures TrashedBy(front + [last], |front|, ref, last.now)
  {
    hide At, InTrash;
    AtFront(front, last, |front|);
  }

  lemma StateOk(ops: seq<Operation>)
    requires AllValid(ops)
    ensures Inv(At(ops, |ops|))
  {
    Front(ops, |ops|);
    EmptyOk();
    RunsKeepInvariant(EMPTY, ops[..|ops|]);
  }

  /**
   The time of a row in the trash is that of the push that put it there since it was last out of the trash, however often
   it was written in between; a row outside the trash has none.
   */
  lemma {:induction false} RetentionRunsFromTheTrashing(ops: seq<Operation>, ref: Ref)
    requires AllValid(ops)
    ensures Timed(ops, At(ops, |ops|), ref)
  {
    hide At, TrashedBy, AllValid, Do;
    if ops == [] {
      NothingYet(ref);
    } else {
      var front, last := ops[..|ops| - 1], ops[|ops| - 1];
      assert ops == front + [last];
      AtLast(front, last);
      RetentionRunsFromTheTrashing(front, ref);
      var s, t := At(front, |front|), At(ops, |ops|);
      StateOk(front);
      if last.PushOp? {
        PushTimes(s, last, ref);
      } else {
        OtherOperationsKeep(s, last, ref);
      }
      if InTrash(t, ref) {
        if InTrash(s, ref) {
          var i: nat :| TrashedBy(front, i, ref, s.rows[ref].retention.value);
          StillTrashed(front, last, i, ref, s.rows[ref].retention.value);
        } else {
          NewlyTrashed(front, last, ref);
        }
      }
    }
  }

  lemma NothingYet(ref: Ref)
    ensures Timed([], At([], 0), ref)
  {
  }

  lemma PushTimes(s: Store, op: Operation, ref: Ref)
    requires Inv(s) && Valid(op) && op.PushOp?
    ensures Kept(RowAt(s, ref), RowAt(Do(s, op), ref), op.now)
  {
    hide Run, Kept, Inv;
    PushKeepsRetention(s, op.owner, op.scan, op.request, op.options, op.now, ref);
  }

  /**
   So the cleanup takes exactly the rows that some push before the cutoff put into the trash and that stayed there, written
   in between or not; it leaves a tombstone one version up, and the other rows as they are.
   */
  lemma CleanedIff(ops: seq<Operation>, scan: seq<Ref>, cutoff: Time, now: Time, who: Option<string>, ref: Ref)
    requires AllValid(ops) && ref in At(ops, |ops|).rows && ref in scan && (who.None? || who.value == ref.owner)
    ensures var t := At(ops, |ops|); var u := Cleanup(t, scan, cutoff, now, who);
      && (ref !in u.rows <==> exists i: nat, time :: TrashedBy(ops, i, ref, time) && time < cutoff)
      && (ref !in u.rows ==> ref in u.tombs && u.tombs[ref].version == t.rows[ref].entity.Version() + 1)
      && (ref in u.rows ==> u.rows[ref] == t.rows[ref])
  {
    hide At, TrashedBy, Cleanup, Inv, AllValid;
    RetentionRunsFromTheTrashing(ops, ref);
    StateOk(ops);
    var t := At(ops, |ops|);
    var u := Cleanup(t, scan, cutoff, now, who);
    CleanupKeeps(t, scan, cutoff, now, who);
    ExpiredMeans(t, ref, cutoff);
    if Expired(t, ref, cutoff) {
      var i: nat :| TrashedBy(ops, i, ref, t.rows[ref].retention.value);
    } else {
      assert SameAt(t, u, ref);
      assert RowAt(t, ref) == RowAt(u, ref);
      forall i: nat, time | TrashedBy(ops, i, ref, time) ensures time >= cutoff {
        TrashedNow(ops, i, ref, time);
        var j: nat :| TrashedBy(ops, j, ref, t.rows[ref].retention.value);
        OneTrashing(ops, i, j, ref, time, t.rows[ref].retention.value);
      }
    }
  }

  lemma ExpiredMeans(t: Store, ref: Ref, cutoff: Time)
    requires ref in t.rows
    ensures Expired(t, ref, cutoff) <==> InTrash(t, ref) && t.rows[ref].retention.Some? && t.rows[ref].retention.value < cutoff
  {
  }

  lemma TrashedNow(ops: seq<Operation>, i: nat, ref: Ref, time: Time)
    requires AllValid(ops) && TrashedBy(ops, i, ref, time)
    ensures InTrash(At(ops, |ops|), ref)
  {
  }

  lemma OneTrashing(ops: seq<Operation>, i: nat, j: nat, ref: Ref, time: Time, other: Time)
    requires AllValid(ops) && TrashedBy(ops, i, ref, time) && TrashedBy(ops, j, ref, other)
    ensures time == other
  {
    hide At, InTrash;
  }
}
