/** Whole runs of the server: any sequence of pushes, deletions, cleanups and compactions, with a puller in between. */
module ServerRuns {
  import opened Wrappers
  import opened SyncSpec
  import opened Tables
  import opened Push
  import opened Pull

  datatype Operation =
    | PushOp(owner: string, scan: seq<Ref>, request: Request, options: Options, now: Time)
    | DeleteOp(refs: seq<Ref>, now: Time)
    | CleanupOp(scan: seq<Ref>, cutoff: Time, now: Time, who: Option<string>)
    | CompactOp(who: Option<string>)

  predicate Valid(op: Operation) {
    op.PushOp? ==> WellFormed(op.request) && UniqueIds(op.request.notebooks) && UniqueIds(op.request.notes)
  }

  /** The operations a client or the server itself can cause; mirror pushes preserve versions instead. */
  predicate FromClient(op: Operation) {
    op.PushOp? ==> !op.options.preserveVersions
  }

  function Do(s: Store, op: Operation): Store
    requires Valid(op)
  {
    match op
    case PushOp(owner, scan, request, options, now) => Run(s, owner, scan, request, options, now).store
    case DeleteOp(refs, now) => DeleteAll(s, refs, now)
    case CleanupOp(scan, cutoff, now, who) => Cleanup(s, scan, cutoff, now, who)
    case CompactOp(who) => Compact(s, who)
  }

  predicate AllValid(ops: seq<Operation>) { forall op :: op in ops ==> Valid(op) }

  function DoAll(s: Store, ops: seq<Operation>): Store
    requires AllValid(ops)
  {
    if ops == [] then s
    else
      assert forall op :: op in ops[..|ops| - 1] ==> op in ops;
      Do(DoAll(s, ops[..|ops| - 1]), ops[|ops| - 1])
  }

  lemma DoKeeps(s: Store, op: Operation)
    requires Inv(s) && Valid(op)
    ensures Inv(Do(s, op)) && Evolves(s, Do(s, op))
    ensures FromClient(op) ==> Rises(s, Do(s, op))
  {
    hide Inv, Run, Cleanup, DeleteAll, Compact;
    match op
    case PushOp(owner, scan, request, options, now) => RunPhases(s, owner, scan, request, options, now);
    case DeleteOp(refs, now) => DeleteAllKeeps(s, refs, now);
    case CleanupOp(scan, cutoff, now, who) => CleanupKeeps(s, scan, cutoff, now, who);
    case CompactOp(who) => CompactKeeps(s, who);
  }

  /**
   After any run, no entity has both a row and a tombstone, the latest logged operation is `upsert` exactly when
   the row exists, and what the log says about an entity only grows.
   */
  lemma {:induction false} RunsKeepInvariant(s: Store, ops: seq<Operation>)
    requires Inv(s) && AllValid(ops)
    ensures Inv(DoAll(s, ops)) && Evolves(s, DoAll(s, ops))
    ensures (forall op :: op in ops ==> FromClient(op)) ==> Rises(s, DoAll(s, ops))
  {
    if ops == [] {
      EvolvesRefl(s);
    } else {
      var front, last := ops[..|ops| - 1], ops[|ops| - 1];
      assert ops == front + [last];
      forall op | op in front ensures op in ops {}
      assert last in ops;
      RunsKeepInvariant(s, front);
      var mid := DoAll(s, front);
      DoKeeps(mid, last);
      InvLog(mid);
      EvolvesTrans(s, mid, Do(mid, last));
      if forall op :: op in ops ==> FromClient(op) {
        RisesTrans(s, mid, Do(mid, last));
      }
    }
  }

  /**
   Over a run of client operations the effective version of an entity never drops, and it strictly rises whenever
   the row or tombstone changes in any way.
   */
  lemma VersionsOnlyRise(ops: seq<Operation>, more: seq<Operation>, ref: Ref)
    requires AllValid(ops) && AllValid(more) && forall op :: op in more ==> FromClient(op)
    ensures
      var s := DoAll(EMPTY, ops);
      var t := DoAll(s, more);
      && Effective(s, ref) <= Effective(t, ref)
      && (!SameAt(s, t, ref) ==> Effective(s, ref) < Effective(t, ref))
      && !(ref in t.rows && ref in t.tombs)
      && (ref in t.rows <==> LatestOp(t.log, ref) == Some(Upsert))
  {
    EmptyOk();
    RunsKeepInvariant(EMPTY, ops);
    RunsKeepInvariant(DoAll(EMPTY, ops), more);
    assert RisesAt(DoAll(EMPTY, ops), DoAll(DoAll(EMPTY, ops), more), ref);
    assert EntityOk(DoAll(DoAll(EMPTY, ops), more), ref);
  }

  /******* A puller among the operations *******/

  /** Either a server operation, or one page whose five queries are separated by arbitrary operations. */
  datatype Event =
    | Operate(op: Operation)
    | PullOne(limit: nat, afterRevision: seq<Operation>, afterPage: seq<Operation>, afterLatest: seq<Operation>, afterNotes: seq<Operation>)

  predicate ValidEvent(e: Event) {
    match e
    case Operate(op) => Valid(op)
    case PullOne(limit, a, b, c, d) => limit >= 1 && AllValid(a) && AllValid(b) && AllValid(c) && AllValid(d)
  }

  function Seen(s: Store, e: Event): View
    requires e.PullOne? && ValidEvent(e)
  {
    var page := DoAll(s, e.afterRevision);
    var latest := DoAll(page, e.afterPage);
    var notes := DoAll(latest, e.afterLatest);
    View(s, page, latest, notes, DoAll(notes, e.afterNotes))
  }

  datatype World = World(store: Store, cursor: nat, replica: map<Ref, Entity>)

  function Happen(w: World, owner: string, e: Event): World
    requires ValidEvent(e)
  {
    if e.Operate? then w.(store := Do(w.store, e.op))
    else
      var v := Seen(w.store, e);
      var page := PageOf(v, owner, w.cursor, e.limit);
      World(v.notebooks, page.serverRevision, ApplyPage(w.replica, page))
  }

  predicate AllEvents(events: seq<Event>) { forall e :: e in events ==> ValidEvent(e) }

  function HappenAll(w: World, owner: string, events: seq<Event>): World
    requires AllEvents(events)
  {
    if events == [] then w
    else
      assert forall e :: e in events[..|events| - 1] ==> e in events;
      Happen(HappenAll(w, owner, events[..|events| - 1]), owner, events[|events| - 1])
  }

  ghost predicate WorldOk(w: World, owner: string) {
    Inv(w.store) && w.cursor < w.store.nextRevision && UpToDate(w.store, owner, w.cursor, w.replica)
  }

  lemma SeenOrdered(s: Store, e: Event)
    requires Inv(s) && e.PullOne? && ValidEvent(e)
    ensures Ordered(Seen(s, e))
  {
    hide Inv, DoAll, Evolves;
    RunsKeepInvariant(s, e.afterRevision);
    var page := DoAll(s, e.afterRevision);
    RunsKeepInvariant(page, e.afterPage);
    var latest := DoAll(page, e.afterPage);
    RunsKeepInvariant(latest, e.afterLatest);
    RunsKeepInvariant(DoAll(latest, e.afterLatest), e.afterNotes);
  }

  lemma HappenKeeps(w: World, owner: string, e: Event)
    requires WorldOk(w, owner) && ValidEvent(e)
    ensures WorldOk(Happen(w, owner, e), owner)
  {
    hide Inv, Do, UpToDate, PageOf, ApplyPage, Seen;
    if e.Operate? {
      DoKeeps(w.store, e.op);
      UpToDateEvolves(w.store, Do(w.store, e.op), owner, w.cursor, w.replica);
    } else {
      SeenOrdered(w.store, e);
      SeenEnds(w.store, e);
      PageKeepsUpToDate(Seen(w.store, e), owner, w.cursor, e.limit, w.replica);
    }
  }

  lemma SeenEnds(s: Store, e: Event)
    requires e.PullOne? && ValidEvent(e)
    ensures Seen(s, e).revision == s
  {
  }

  /**
   Whatever happens between pages and between the queries of one page, a replica that starts empty at cursor 0
   always agrees with the tables on every entity whose latest revision is at most its cursor.
   */
  lemma {:induction false} PullerStaysComplete(w: World, owner: string, events: seq<Event>)
    requires WorldOk(w, owner) && AllEvents(events)
    ensures WorldOk(HappenAll(w, owner, events), owner)
  {
    hide WorldOk, ValidEvent, Happen;
    if events != [] {
      var front, last := events[..|events| - 1], events[|events| - 1];
      assert events == front + [last];
      forall e | e in front ensures e in events {}
      assert last in events;
      PullerStaysComplete(w, owner, front);
      HappenKeeps(HappenAll(w, owner, front), owner, last);
    }
  }

  lemma FreshPullerIsComplete(owner: string)
    ensures WorldOk(World(EMPTY, 0, map[]), owner)
  {
    EmptyOk();
    forall ref ensures CurrentAt(EMPTY, owner, 0, map[], ref) {}
  }
}
