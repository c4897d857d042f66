/** remote-sync.ts at work on two repositories. */
module MirrorWorker {
  import opened Wrappers
  import opened SyncSpec
  import opened Tables
  import opened Push
  import opened Pull
  import opened Mirror
  import opened MirrorPage
  import opened MirrorRuns
  import opened MirrorSync
  import opened MirrorSafety
  import opened RepositoryModule

  lemma PlanNone(f: Entry -> Decision)
    ensures !Diverges([], f)
    ensures forall kind :: Copies([], f, kind) == [] && Chosen([], f, kind, DeleteSource) == [] && Chosen([], f, kind, DeleteTarget) == []
  {
  }

  lemma PlanOneMore(changes: seq<Entry>, i: nat, f: Entry -> Decision)
    requires i < |changes|
    ensures var front, more, e := changes[..i], changes[..i + 1], changes[i];
      && (Diverges(more, f) <==> Diverges(front, f) || f(e) == Diverge)
      && (f(e) == Diverge ==> Diverges(changes, f))
      && (forall kind :: Copies(more, f, kind) ==
            Copies(front, f, kind) + (if f(e).Copy? && e.ref.kind == kind then [Change(f(e).record, f(e).base)] else []))
      && (forall kind, d :: Chosen(more, f, kind, d) ==
            Chosen(front, f, kind, d) + (if f(e) == d && e.ref.kind == kind then [e.ref] else []))
  {
    assert changes[..i + 1][..i] == changes[..i];
    assert changes[..i + 1] == changes[..i] + [changes[i]];
  }

  /** The four plan builders of a page: records to push, rows to delete on either side, or a divergence. */
  method PlanPage(page: Page, s: Store, t: Store, outbound: nat, mirrored: set<Ref>)
    returns (divergent: bool, request: Request, deleteSource: seq<Ref>, deleteTarget: seq<Ref>)
    ensures var f := Decider(s, t, page, outbound, mirrored);
      && divergent == Diverges(page.changes, f)
      && (!divergent ==> request == PlanRequest(page.changes, f))
      && (!divergent ==> deleteSource == Deleted(page.changes, f, DeleteSource))
      && (!divergent ==> deleteTarget == Deleted(page.changes, f, DeleteTarget))
  {
    hide Decide, Copies, Chosen, Diverges;
    ghost var f := Decider(s, t, page, outbound, mirrored);
    PlanNone(f);
    var changes := page.changes;
    var notebooks: seq<Change>, notes: seq<Change> := [], [];
    var sourceNotebooks: seq<Ref>, sourceNotes: seq<Ref> := [], [];
    var targetNotebooks: seq<Ref>, targetNotes: seq<Ref> := [], [];
    for i := 0 to |changes|
      invariant !Diverges(changes[..i], f)
      invariant notebooks == Copies(changes[..i], f, NotebookKind) && notes == Copies(changes[..i], f, NoteKind)
      invariant sourceNotebooks == Chosen(changes[..i], f, NotebookKind, DeleteSource)
      invariant sourceNotes == Chosen(changes[..i], f, NoteKind, DeleteSource)
      invariant targetNotebooks == Chosen(changes[..i], f, NotebookKind, DeleteTarget)
      invariant targetNotes == Chosen(changes[..i], f, NoteKind, DeleteTarget)
    {
      var e := changes[i];
      PlanOneMore(changes, i, f);
      var decision := Decide(s, t, page, outbound, mirrored, e);
      assert decision == f(e);
      if decision == Diverge {
        return true, Request([], []), [], [];
      }
      if e.ref.kind == NotebookKind {
        if decision.Copy? { notebooks := notebooks + [Change(decision.record, decision.base)]; }
        if decision == DeleteSource { sourceNotebooks := sourceNotebooks + [e.ref]; }
        if decision == DeleteTarget { targetNotebooks := targetNotebooks + [e.ref]; }
      } else {
        if decision.Copy? { notes := notes + [Change(decision.record, decision.base)]; }
        if decision == DeleteSource { sourceNotes := sourceNotes + [e.ref]; }
        if decision == DeleteTarget { targetNotes := targetNotes + [e.ref]; }
      }
    }
    assert changes[..|changes|] == changes;
    return false, Request(notebooks, notes), sourceNotebooks + sourceNotes, targetNotebooks + targetNotes;
  }

  /** pushMirrorChanges: an error when the push reports a conflict; what it accepted stays committed. */
  method PushMirrorChanges(target: Repository, owner: string, request: Request, scan: seq<Ref>, now: Time) returns (ok: bool)
    requires Inv(target.State()) && WellFormed(request) && UniqueIds(request.notebooks) && UniqueIds(request.notes)
    modifies target
    ensures var o := Run(old(target.State()), owner, scan, request, MIRROR, now);
      target.State() == o.store && ok == (NoneRejected(o.notebooks) && NoneRejected(o.notes))
    ensures Inv(target.State()) && Evolves(old(target.State()), target.State())
  {
    if request.notebooks == [] && request.notes == [] {
      RunOfNothing(target.State(), owner, scan, MIRROR, now);
      EvolvesRefl(target.State());
      return true;
    }
    hide Run, Inv, Evolves, Rises;
    var result := target.PushChanges(request, owner, scan, MIRROR, now);
    return NoneRejected(result.value.0) && NoneRejected(result.value.1);
  }

  /**
   One page: plan, delete on both sides, push. However it ends, both databases are what `Ended` says: a failure may leave the
   deletions and the accepted records behind, but it lowers no version and replaces no unmirrored live content.
   */
  method RunPage(source: Repository, target: Repository, owner: string, cursor: nat, outbound: nat, mirrored: set<Ref>, turn: Turn)
    returns (ok: bool, next: set<Ref>)
    requires source != target && Inv(source.State()) && Inv(target.State()) && Rows(source.State()) && turn.limit >= 1
    modifies source, target
    ensures
      var p := Pass(old(source.State()), old(target.State()), cursor, mirrored, true);
      var r := TakePage(p, owner, outbound, turn);
      && ok == r.Ok? && (ok ==> source.State() == r.value.source && target.State() == r.value.target && next == r.value.mirrored)
      && (source.State(), target.State()) == Ended(p, owner, outbound, turn)
    ensures Inv(source.State()) && Evolves(old(source.State()), source.State()) && Rises(old(source.State()), source.State())
    ensures Inv(target.State()) && Evolves(old(target.State()), target.State()) && Rises(old(target.State()), target.State())
    ensures outbound < old(target.nextRevision) ==>
      var p := Pass(old(source.State()), old(target.State()), cursor, mirrored, true);
      forall ref :: Unmirrored(p.target, ref, outbound, mirrored) ==>
        CopiesSame(p, owner, outbound, turn, ref) || SameAt(p.target, target.State(), ref)
  {
    hide Inv, Rows, PageOf, Run, Evolves, Rises, DeleteAll, Decide, RefsArrive, WellFormed, UniqueIds, Deleted, Diverges, Mirror.Written, NoneRejected, Begin, Ended, TakePage, Diverged, CopiesSame, Unmirrored;
    var s, t := source.State(), target.State();
    var page := PageOf(Still(s), owner, cursor, turn.limit);
    ghost var f := Decider(s, t, page, outbound, mirrored);
    ghost var p := Pass(s, t, cursor, mirrored, true);
    next := mirrored;
    PageMeans(p, owner, outbound, turn);
    PageNeverLowers(p, owner, outbound, turn);
    EndKeeps(p, owner, outbound, turn);
    EndSparesUnmirrored(p, owner, outbound, turn);
    var divergent, request, deleteSource, deleteTarget := PlanPage(page, s, t, outbound, mirrored);
    if divergent {
      return false, mirrored;
    }
    PlanUnique(s, t, owner, page, f);
    DeleteAllKeeps(t, deleteTarget, turn.now);
    source.DeleteByIds(deleteSource, turn.now);
    target.DeleteByIds(deleteTarget, turn.now);
    ok := PushMirrorChanges(target, owner, request, turn.scan, turn.now);
    next := mirrored + Mirror.Written(page.changes, Decider(s, t, page, outbound, mirrored));
  }

  /** A page in the terms of its plan. */
  lemma PageMeans(p: Pass, owner: string, outbound: nat, turn: Turn)
    requires Inv(p.source) && Inv(p.target) && turn.limit >= 1 && Rows(p.source)
    ensures
      var page := PageOf(Still(p.source), owner, p.cursor, turn.limit);
      var f := Decider(p.source, p.target, page, outbound, p.mirrored);
      var cleared := DeleteAll(p.target, Deleted(page.changes, f, DeleteTarget), turn.now);
      var request := PlanRequest(page.changes, f);
      var r := TakePage(p, owner, outbound, turn);
      && PlanOk(p.source, p.target, owner, page, f) && WellFormed(request)
      && (Diverges(page.changes, f) ==> r.Err? && Ended(p, owner, outbound, turn) == (p.source, p.target))
      && (!Diverges(page.changes, f) ==>
            var o := Run(cleared, owner, turn.scan, request, MIRROR, turn.now);
            && Ended(p, owner, outbound, turn) == (DeleteAll(p.source, Deleted(page.changes, f, DeleteSource), turn.now), o.store)
            && (r.Ok? <==> NoneRejected(o.notebooks) && NoneRejected(o.notes))
            && (r.Ok? ==> (r.value.source, r.value.target) == Ended(p, owner, outbound, turn)
                          && r.value.mirrored == p.mirrored + Mirror.Written(page.changes, f)))
  {
    hide *;
    BeginFacts(p, owner, outbound, turn);
    EndKeeps(p, owner, outbound, turn);
    EndedTaken(p, owner, outbound, turn);
    if TakePage(p, owner, outbound, turn).Ok? {
      DetailsFacts(p, owner, outbound, turn);
      NextIsTaken(p, owner, outbound, turn);
    }
  }

  lemma EndSparesUnmirrored(p: Pass, owner: string, outbound: nat, turn: Turn)
    requires Inv(p.source) && Inv(p.target) && turn.limit >= 1 && Rows(p.source)
    ensures outbound < p.target.nextRevision ==>
      forall ref :: Unmirrored(p.target, ref, outbound, p.mirrored) ==>
        CopiesSame(p, owner, outbound, turn, ref) || SameAt(p.target, Ended(p, owner, outbound, turn).1, ref)
  {
    hide Inv, Rows, Ended, CopiesSame, Unmirrored, TakePage;
    if outbound < p.target.nextRevision {
      forall ref | Unmirrored(p.target, ref, outbound, p.mirrored)
        ensures CopiesSame(p, owner, outbound, turn, ref) || SameAt(p.target, Ended(p, owner, outbound, turn).1, ref)
      {
        UnmirroredSurvivesPage(p, owner, outbound, turn, ref);
      }
    }
  }

  /** TakePage looks at `refsKept` only to carry it along. */
  lemma TakePageKept(p: Pass, owner: string, outbound: nat, turn: Turn, kept: bool)
    requires turn.limit >= 1 && Rows(p.source)
    ensures TakePage(p, owner, outbound, turn).Ok? == TakePage(p.(refsKept := kept), owner, outbound, turn).Ok?
    ensures TakePage(p, owner, outbound, turn).Ok? ==>
      var q, r := TakePage(p, owner, outbound, turn).value, TakePage(p.(refsKept := kept), owner, outbound, turn).value;
      q.source == r.source && q.target == r.target && q.cursor == r.cursor && q.mirrored == r.mirrored
  {
    hide PageOf, Run, DeleteAll, Decide, RefsArrive, Deleted, Diverges, Mirror.Written, NoneRejected;
  }

  /**
   syncEntityOwnerOneWay on two repositories. `stored` is the cursor left in the target's metadata: even when the pass
   fails half way, the two-cursor invariant holds at it.
   */
  method SyncEntityOwnerOneWay(source: Repository, target: Repository, owner: string, storedCursor: nat, outbound: nat, turns: nat -> Turn, ghost before: bool)
    returns (ok: bool, stored: nat, ghost kept: bool)
    requires source != target && Limited(turns)
    requires PassOk(Pass(source.State(), target.State(), storedCursor, {}, before), outbound)
    requires MirrorOk(source.State(), target.State(), owner, storedCursor, outbound)
    modifies source, target
    ensures
      var r := PassFrom(Pass(old(source.State()), old(target.State()), storedCursor, {}, before), owner, outbound, turns, 0, false);
      && ok == r.Ok?
      && (ok ==> source.State() == r.value.source && target.State() == r.value.target && stored == r.value.cursor && kept == r.value.refsKept)
    ensures Inv(source.State()) && Inv(target.State())
    ensures Evolves(old(source.State()), source.State()) && Evolves(old(target.State()), target.State())
    ensures Rises(old(source.State()), source.State()) && Rises(old(target.State()), target.State())
    ensures MirrorOk(source.State(), target.State(), owner, stored, outbound)
  {
    hide Inv, TidyRows, Rows, PageOf, Evolves, Rises, MirrorOk, TakePage, Ended, Unmirrored, CopiesSame;
    ghost var start := PassFrom(Pass(source.State(), target.State(), storedCursor, {}, before), owner, outbound, turns, 0, false);
    stored := storedCursor;
    kept := before;
    var mirrored: set<Ref> := {};
    var hasMore, reset := true, false;
    var k: nat := 0;
    EvolvesRefl(source.State());
    EvolvesRefl(target.State());
    while hasMore
      invariant PassOk(Pass(source.State(), target.State(), stored, mirrored, kept), outbound)
      invariant MirrorOk(source.State(), target.State(), owner, stored, outbound)
      invariant Evolves(old(source.State()), source.State()) && Evolves(old(target.State()), target.State())
      invariant Rises(old(source.State()), source.State()) && Rises(old(target.State()), target.State())
      invariant start == if hasMore then PassFrom(Pass(source.State(), target.State(), stored, mirrored, kept), owner, outbound, turns, k, reset)
                         else Ok(Pass(source.State(), target.State(), stored, mirrored, kept))
      decreases if hasMore then 1 else 0, if reset then 0 else 1, |source.rows|, source.nextRevision - stored
    {
      ghost var p := Pass(source.State(), target.State(), stored, mirrored, kept);
      var turn := turns(k);
      var page := PageOf(Still(source.State()), owner, stored, turn.limit);
      InvRows(p.source);
      k := k + 1;
      if page.serverRevision < stored && !reset {
        EarlierMirrorOk(p.source, p.target, owner, stored, outbound);
        reset := true;
        stored := 0;
        continue;
      }
      var cursor := SafeRevisionCursor(page.serverRevision, stored, page.hasMore);
      if cursor.Err? {
        return false, stored, kept;
      }
      TakePageKept(p, owner, outbound, turn, true);
      var taken: bool;
      taken, mirrored := RunPage(source, target, owner, stored, outbound, mirrored, turn);
      InvLog(p.source);
      InvLog(p.target);
      EvolvesTrans(old(source.State()), p.source, source.State());
      EvolvesTrans(old(target.State()), p.target, target.State());
      RisesTrans(old(source.State()), p.source, source.State());
      RisesTrans(old(target.State()), p.target, target.State());
      if !taken {
        MirrorOkEvolves(p.source, p.target, source.State(), target.State(), owner, stored, outbound);
        return false, stored, kept;
      }
      PageKeepsPassOk(p, owner, outbound, turn);
      PageKeepsMirrorOk(p, owner, outbound, turn);
      PageProgress(p, owner, outbound, turn);
      kept := TakePage(p, owner, outbound, turn).value.refsKept;
      stored := cursor.value;
      hasMore := page.hasMore;
    }
    ok := true;
  }

  /**
   syncDatabases for one owner. When the three passes end well and no copied note lost a reference, both databases
   hold the same live content; however it ends, the cursors it leaves satisfy the two-cursor invariant.
   */
  method SyncBoth(local: Repository, remote: Repository, owner: string, localCursor: nat, remoteCursor: nat, turns: Script)
    returns (ok: bool, newLocal: nat, newRemote: nat, ghost kept: bool)
    requires local != remote && LimitedScript(turns)
    requires PairOk(Pair(local.State(), remote.State(), localCursor, remoteCursor), owner)
    modifies local, remote
    ensures
      var r := SyncDatabases(Pair(old(local.State()), old(remote.State()), localCursor, remoteCursor), owner, turns);
      ok == r.Ok? && (ok ==> r.value == Synced(Pair(local.State(), remote.State(), newLocal, newRemote), kept))
    ensures ok && kept ==> forall ref: Ref :: ref.owner == owner ==> Agree(local.State(), remote.State(), ref)
    ensures Inv(local.State()) && Inv(remote.State())
    ensures Rises(old(local.State()), local.State()) && Rises(old(remote.State()), remote.State())
    ensures MirrorOk(local.State(), remote.State(), owner, newLocal, newRemote)
  {
    hide Inv, TidyRows, PassFrom, Evolves, Rises, MirrorOk, Limited, Agree;
    ghost var start := Pair(local.State(), remote.State(), localCursor, remoteCursor);
    newLocal, newRemote := localCursor, remoteCursor;
    MirrorOkSymmetric(local.State(), remote.State(), owner, newLocal, newRemote);
    ghost var p1 := Pass(remote.State(), local.State(), remoteCursor, {}, true);
    PassKeeps(p1, owner, localCursor, turns.first, 0, false);
    ok, newRemote, kept := SyncEntityOwnerOneWay(remote, local, owner, remoteCursor, localCursor, turns.first, true);
    MirrorOkSymmetric(remote.State(), local.State(), owner, newRemote, newLocal);
    if !ok { return; }
    ghost var localNow, remoteNow := local.State(), remote.State();
    ghost var p2 := Pass(local.State(), remote.State(), localCursor, {}, kept);
    PassKeeps(p2, owner, newRemote, turns.second, 0, false);
    ok, newLocal, kept := SyncEntityOwnerOneWay(local, remote, owner, localCursor, newRemote, turns.second, kept);
    RisesTrans(old(local.State()), localNow, local.State());
    RisesTrans(old(remote.State()), remoteNow, remote.State());
    if !ok { return; }
    localNow, remoteNow := local.State(), remote.State();
    MirrorOkSymmetric(local.State(), remote.State(), owner, newLocal, newRemote);
    ghost var p3 := Pass(remote.State(), local.State(), newRemote, {}, kept);
    PassKeeps(p3, owner, newLocal, turns.third, 0, false);
    ok, newRemote, kept := SyncEntityOwnerOneWay(remote, local, owner, newRemote, newLocal, turns.third, kept);
    RisesTrans(old(local.State()), localNow, local.State());
    RisesTrans(old(remote.State()), remoteNow, remote.State());
    MirrorOkSymmetric(remote.State(), local.State(), owner, newRemote, newLocal);
    if ok && kept {
      forall ref: Ref | ref.owner == owner ensures Agree(local.State(), remote.State(), ref) {
        MirrorAgreement(start, owner, turns, ref);
      }
    }
  }
}
