/**
 Paging the change log. The queries of one page may see different tables: writes, cleanups and compactions
 can land between any two of them, so a page is a function of the tables each query saw.
 */
module Pull {
  import opened Wrappers
  import opened SyncSpec
  import opened Tables
  import Seqs

  const DEFAULT_PULL_LIMIT: nat := 1000
  const MAX_PULL_LIMIT: nat := 1000

  function PullLimit(limit: Option<int>): (r: nat)
    ensures 1 <= r <= MAX_PULL_LIMIT
    ensures limit.Some? && 1 <= limit.value <= MAX_PULL_LIMIT ==> r == limit.value
    ensures limit.Some? && limit.value > MAX_PULL_LIMIT ==> r == MAX_PULL_LIMIT
    ensures limit.None? || limit.value <= 0 ==> r == DEFAULT_PULL_LIMIT
  {
    if limit.None? || limit.value <= 0 then DEFAULT_PULL_LIMIT
    else if limit.value <= MAX_PULL_LIMIT then limit.value
    else MAX_PULL_LIMIT
  }

  /******* The queries *******/

  /** SELECT max(revision) of the owner's entries, 0 when there are none. */
  function CurrentRevision(log: seq<Entry>, owner: string): (r: nat)
    ensures r > 0 ==> exists e :: e in log && e.ref.owner == owner && e.revision == r
  {
    if log == [] then 0
    else
      var last := log[|log| - 1];
      assert log == log[..|log| - 1] + [last];
      if last.ref.owner == owner then last.revision else CurrentRevision(log[..|log| - 1], owner)
  }

  predicate InWindow(e: Entry, owner: string, lo: nat, hi: nat) {
    e.ref.owner == owner && lo < e.revision <= hi
  }

  function Window(log: seq<Entry>, owner: string, lo: nat, hi: nat): (r: seq<Entry>)
    ensures forall e :: e in r <==> e in log && InWindow(e, owner, lo, hi)
  {
    Seqs.Filter(log, e => InWindow(e, owner, lo, hi))
  }

  /** The entries of the window that are the latest of their entity within the window. */
  function LatestInWindow(log: seq<Entry>, owner: string, lo: nat, hi: nat): (r: seq<Entry>)
    ensures forall e :: e in r <==> e in log && InWindow(e, owner, lo, hi) && LatestUpTo(log, e.ref, hi) == Some(e)
  {
    Seqs.Filter(log, e => InWindow(e, owner, lo, hi) && LatestUpTo(log, e.ref, hi) == Some(e))
  }

  /** The entity's latest entry with a revision of at most `hi`. */
  function LatestUpTo(log: seq<Entry>, ref: Ref, hi: nat): (r: Option<Entry>)
    ensures r.Some? ==> r.value in log && r.value.ref == ref && r.value.revision <= hi
    ensures r.None? ==> forall e :: e in log && e.ref == ref ==> e.revision > hi
  {
    if log == [] then None
    else
      var last := log[|log| - 1];
      assert log == log[..|log| - 1] + [last];
      if last.ref == ref && last.revision <= hi then Some(last) else LatestUpTo(log[..|log| - 1], ref, hi)
  }

  /******* Pages *******/

  /** The tables seen by the five queries of one page. */
  datatype View = View(revision: Store, page: Store, latest: Store, notes: Store, notebooks: Store)

  function Still(s: Store): View { View(s, s, s, s, s) }

  /** `visible` counts the log rows the page covers, before duplicates are dropped. */
  datatype Page = Page(serverRevision: nat, changes: seq<Entry>, fetched: map<Ref, Entity>, hasMore: bool, visible: nat)

  function Fetch(v: View, changes: seq<Entry>): (r: map<Ref, Entity>)
    ensures forall ref :: ref in r <==>
      (exists e :: e in changes && e.op == Upsert && e.ref == ref) && ref in Fetched(v, ref.kind).rows
    ensures forall ref :: ref in r ==> r[ref] == Fetched(v, ref.kind).rows[ref].entity
  {
    map ref | ref in Upserted(changes) && ref in Fetched(v, ref.kind).rows :: Fetched(v, ref.kind).rows[ref].entity
  }

  function Upserted(changes: seq<Entry>): set<Ref> { set e | e in changes && e.op == Upsert :: e.ref }

  function Fetched(v: View, kind: Kind): Store {
    if kind == NoteKind then v.notes else v.notebooks
  }

  function PageOf(v: View, owner: string, since: nat, limit: nat): Page
    requires limit >= 1
  {
    var current := CurrentRevision(v.revision.log, owner);
    var rows := Window(v.page.log, owner, since, current);
    var hasMore := |rows| > limit;
    var visible := if hasMore then rows[..limit] else rows;
    if visible == [] then Page(current, [], map[], false, 0)
    else
      var serverRevision := visible[|visible| - 1].revision;
      var changes := LatestInWindow(v.latest.log, owner, since, serverRevision);
      Page(serverRevision, changes, Fetch(v, changes), hasMore, |visible|)
  }

  /** Halve the limit until the page fits in `maxBytes`; a single row that does not fit is an error. */
  function PullPage(views: nat -> View, attempt: nat, owner: string, since: nat, limit: nat, bytes: Page -> nat, maxBytes: nat): Result<Page, string>
    requires limit >= 1
    decreases limit
  {
    var page := PageOf(views(attempt), owner, since, limit);
    if page.visible == 0 || bytes(page) <= maxBytes then Ok(page)
    else if page.visible <= 1 then Err("A stored sync record exceeds the pull response byte limit")
    else
      assert page.visible <= limit;
      PullPage(views, attempt + 1, owner, since, Larger(1, page.visible / 2), bytes, maxBytes)
  }

  function Larger(a: nat, b: nat): nat { if a >= b then a else b }

  /******* The replica *******/

  /** Store each returned record, drop each deleted id. */
  function ApplyChanges(replica: map<Ref, Entity>, changes: seq<Entry>, fetched: map<Ref, Entity>): map<Ref, Entity> {
    if changes == [] then replica
    else
      var r := ApplyChanges(replica, changes[..|changes| - 1], fetched);
      var e := changes[|changes| - 1];
      if e.op == Delete then r - {e.ref}
      else if e.ref in fetched then r[e.ref := fetched[e.ref]]
      else r
  }

  function ApplyPage(replica: map<Ref, Entity>, page: Page): map<Ref, Entity> {
    ApplyChanges(replica, page.changes, page.fetched)
  }

  function EntityAt(s: Store, ref: Ref): Option<Entity> {
    if ref in s.rows then Some(s.rows[ref].entity) else None
  }

  function Lookup(replica: map<Ref, Entity>, ref: Ref): Option<Entity> {
    if ref in replica then Some(replica[ref]) else None
  }

  /** Everything logged up to the cursor is in the replica as it is in the tables. */
  ghost predicate UpToDate(s: Store, owner: string, cursor: nat, replica: map<Ref, Entity>) {
    forall ref :: CurrentAt(s, owner, cursor, replica, ref)
  }

  ghost predicate CurrentAt(s: Store, owner: string, cursor: nat, replica: map<Ref, Entity>, ref: Ref) {
    ref.owner == owner && LatestRevision(s.log, ref) <= cursor ==> Lookup(replica, ref) == EntityAt(s, ref)
  }

  /** The queries saw the tables in order, each in a state the previous one can evolve into. */
  ghost predicate Ordered(v: View) {
    && Inv(v.revision) && Inv(v.page) && Inv(v.latest) && Inv(v.notes) && Inv(v.notebooks)
    && Evolves(v.revision, v.page) && Evolves(v.page, v.latest)
    && Evolves(v.latest, v.notes) && Evolves(v.notes, v.notebooks)
  }

  lemma OrderedEvolves(v: View)
    requires Ordered(v)
    ensures Evolves(v.revision, v.notebooks) && LogOk(v.revision) && LogOk(v.notebooks)
  {
    hide Evolves, Inv;
    InvLog(v.revision);
    InvLog(v.page);
    InvLog(v.latest);
    InvLog(v.notes);
    InvLog(v.notebooks);
    EvolvesTrans(v.revision, v.page, v.latest);
    EvolvesTrans(v.revision, v.latest, v.notes);
    EvolvesTrans(v.revision, v.notes, v.notebooks);
  }

  /******* Completeness *******/

  /** While the cursor stays below the counter, server operations cannot outdate the replica. */
  lemma UpToDateEvolves(s: Store, t: Store, owner: string, cursor: nat, replica: map<Ref, Entity>)
    requires UpToDate(s, owner, cursor, replica) && Evolves(s, t) && cursor < s.nextRevision
    ensures UpToDate(t, owner, cursor, replica)
  {
    forall ref ensures CurrentAt(t, owner, cursor, replica, ref) {
      assert CurrentAt(s, owner, cursor, replica, ref) && Moved(s, t, ref);
      assert SameAt(s, t, ref) ==> RowAt(s, ref) == RowAt(t, ref);
    }
  }

  lemma {:induction false} ApplyChangesAt(replica: map<Ref, Entity>, changes: seq<Entry>, fetched: map<Ref, Entity>, ref: Ref)
    requires forall d, e :: d in changes && e in changes && d.ref == e.ref ==> d == e
    ensures (forall e :: e in changes ==> e.ref != ref) ==>
      Lookup(ApplyChanges(replica, changes, fetched), ref) == Lookup(replica, ref)
    ensures forall e :: e in changes && e.ref == ref ==>
      Lookup(ApplyChanges(replica, changes, fetched), ref) ==
        if e.op == Delete then None else if ref in fetched then Some(fetched[ref]) else Lookup(replica, ref)
  {
    if changes != [] {
      var front, last := changes[..|changes| - 1], changes[|changes| - 1];
      assert changes == front + [last];
      ApplyChangesAt(replica, front, fetched, ref);
      if last.ref == ref {
        assert forall e :: e in changes && e.ref == ref ==> e == last;
      }
    }
  }

  lemma CurrentIsMax(log: seq<Entry>, owner: string, e: Entry)
    requires Sorted(log) && e in log && e.ref.owner == owner
    ensures e.revision <= CurrentRevision(log, owner)
  {
    if log != [] {
      var rest, last := log[..|log| - 1], log[|log| - 1];
      assert log == rest + [last];
      if last.ref.owner == owner {
        var i :| 0 <= i < |log| && log[i] == e;
      } else {
        CurrentIsMax(rest, owner, e);
      }
    }
  }

  lemma CurrentBelowNext(s: Store, owner: string)
    requires LogOk(s)
    ensures CurrentRevision(s.log, owner) < s.nextRevision
  {
  }

  /** The latest entry of an entity, when not newer than `hi`, is the latest up to `hi`. */
  lemma LatestUpToIsLatest(log: seq<Entry>, ref: Ref, hi: nat)
    requires Sorted(log) && LatestRevision(log, ref) <= hi
    ensures LatestUpTo(log, ref, hi) == Latest(log, ref)
  {
    if log != [] {
      var rest, last := log[..|log| - 1], log[|log| - 1];
      assert log == rest + [last];
      LatestIsMax(log, ref);
      if last.ref != ref {
        LatestUpToIsLatest(rest, ref, hi);
      }
    }
  }

  lemma ChangesAreFunctional(log: seq<Entry>, owner: string, lo: nat, hi: nat)
    ensures var changes := LatestInWindow(log, owner, lo, hi);
      forall d, e :: d in changes && e in changes && d.ref == e.ref ==> d == e
  {
  }

  /** An entity whose last entry the first query already counted stays put for the whole page. */
  lemma StaysPut(v: View, owner: string, ref: Ref, hi: nat)
    requires Ordered(v) && ref.owner == owner
    requires LatestRevision(v.notebooks.log, ref) <= hi < v.revision.nextRevision
    ensures Latest(v.notebooks.log, ref) == Latest(v.revision.log, ref) == Latest(v.page.log, ref) == Latest(v.latest.log, ref)
    ensures EntityAt(v.revision, ref) == EntityAt(v.notebooks, ref) == EntityAt(Fetched(v, ref.kind), ref)
  {
    assert Moved(v.notes, v.notebooks, ref) && Moved(v.latest, v.notes, ref);
    assert Moved(v.page, v.latest, ref) && Moved(v.revision, v.page, ref);
    assert SameAt(v.notes, v.notebooks, ref) && SameAt(v.latest, v.notes, ref);
    assert SameAt(v.page, v.latest, ref) && SameAt(v.revision, v.page, ref);
    assert RowAt(v.notes, ref) == RowAt(v.notebooks, ref) == RowAt(v.latest, ref) == RowAt(v.revision, ref);
  }

  /** The page covers every entity whose last entry lies between the old cursor and the new one. */
  lemma PageCovers(v: View, owner: string, since: nat, limit: nat, ref: Ref)
    requires Ordered(v) && limit >= 1 && ref.owner == owner
    requires var page := PageOf(v, owner, since, limit);
      since < LatestRevision(v.notebooks.log, ref) <= page.serverRevision
    ensures var page := PageOf(v, owner, since, limit);
      var e := Latest(v.notebooks.log, ref);
      e.Some? && e.value in page.changes && e.value.ref == ref
  {
    var current := CurrentRevision(v.revision.log, owner);
    var page := PageOf(v, owner, since, limit);
    PageRevisionBounds(v, owner, since, limit);
    CurrentBelowNext(v.revision, owner);
    StaysPut(v, owner, ref, current);
    var e := Latest(v.notebooks.log, ref).value;
    assert e in v.page.log && InWindow(e, owner, since, current);
    assert e in Window(v.page.log, owner, since, current);
    assert page.visible > 0;
    LatestUpToIsLatest(v.latest.log, ref, page.serverRevision);
  }

  lemma PageRevisionBounds(v: View, owner: string, since: nat, limit: nat)
    requires limit >= 1
    ensures var page := PageOf(v, owner, since, limit);
      && page.serverRevision <= CurrentRevision(v.revision.log, owner)
      && page.visible <= limit
      && (page.visible > 0 ==> page.serverRevision > since)
      && (page.hasMore ==> page.visible == limit)
      && (page.visible == 0 ==> page.serverRevision == CurrentRevision(v.revision.log, owner))
  {
    hide LatestInWindow, Fetch, CurrentRevision, Window;
    var current := CurrentRevision(v.revision.log, owner);
    var rows := Window(v.page.log, owner, since, current);
    var visible := if |rows| > limit then rows[..limit] else rows;
    if visible != [] {
      assert visible[|visible| - 1] in rows;
    }
  }

  lemma Untouched(v: View, owner: string, since: nat, hi: nat, ref: Ref)
    requires Ordered(v) && LatestRevision(v.latest.log, ref) <= since
    ensures forall e :: e in LatestInWindow(v.latest.log, owner, since, hi) ==> e.ref != ref
  {
    LatestIsMax(v.latest.log, ref);
  }

  /** What the page does to one entity of the replica. */
  lemma AppliedAt(v: View, owner: string, since: nat, limit: nat, replica: map<Ref, Entity>, ref: Ref)
    requires limit >= 1
    ensures var page := PageOf(v, owner, since, limit);
      && ((forall e :: e in page.changes ==> e.ref != ref) ==> Lookup(ApplyPage(replica, page), ref) == Lookup(replica, ref))
      && (forall e :: e in page.changes && e.ref == ref ==>
            Lookup(ApplyPage(replica, page), ref) ==
              if e.op == Delete then None
              else if ref in Fetched(v, ref.kind).rows then Some(Fetched(v, ref.kind).rows[ref].entity)
              else Lookup(replica, ref))
  {
    var page := PageOf(v, owner, since, limit);
    if page.visible > 0 {
      ChangesAreFunctional(v.latest.log, owner, since, page.serverRevision);
      ApplyChangesAt(replica, page.changes, page.fetched, ref);
    }
  }

  lemma CurrentIfOld(v: View, owner: string, since: nat, limit: nat, replica: map<Ref, Entity>, ref: Ref)
    requires Ordered(v) && limit >= 1 && since < v.revision.nextRevision && ref.owner == owner
    requires CurrentAt(v.revision, owner, since, replica, ref)
    requires LatestRevision(v.notebooks.log, ref) <= since
    ensures Lookup(ApplyPage(replica, PageOf(v, owner, since, limit)), ref) == EntityAt(v.notebooks, ref)
  {
    var page := PageOf(v, owner, since, limit);
    StaysPut(v, owner, ref, since);
    AppliedAt(v, owner, since, limit, replica, ref);
    Untouched(v, owner, since, page.serverRevision, ref);
    assert forall e :: e in page.changes ==> e.ref != ref;
  }

  lemma CurrentIfNew(v: View, owner: string, since: nat, limit: nat, replica: map<Ref, Entity>, ref: Ref)
    requires Ordered(v) && limit >= 1 && ref.owner == owner
    requires since < LatestRevision(v.notebooks.log, ref) <= PageOf(v, owner, since, limit).serverRevision
    ensures Lookup(ApplyPage(replica, PageOf(v, owner, since, limit)), ref) == EntityAt(v.notebooks, ref)
  {
    hide PageOf, ApplyPage;
    var page := PageOf(v, owner, since, limit);
    PageRevisionBounds(v, owner, since, limit);
    CurrentBelowNext(v.revision, owner);
    StaysPut(v, owner, ref, page.serverRevision);
    AppliedAt(v, owner, since, limit, replica, ref);
    PageCovers(v, owner, since, limit, ref);
    assert EntityOk(v.notebooks, ref);
  }

  /**
   One page, whatever lands between its queries, moves an up-to-date replica to the page's revision.
   */
  lemma PageKeepsUpToDate(v: View, owner: string, since: nat, limit: nat, replica: map<Ref, Entity>)
    requires Ordered(v) && limit >= 1 && since < v.revision.nextRevision
    requires UpToDate(v.revision, owner, since, replica)
    ensures var page := PageOf(v, owner, since, limit);
      && UpToDate(v.notebooks, owner, page.serverRevision, ApplyPage(replica, page))
      && page.serverRevision < v.notebooks.nextRevision
  {
    hide PageOf, Inv, ApplyPage;
    var page := PageOf(v, owner, since, limit);
    PageRevisionBounds(v, owner, since, limit);
    InvLog(v.revision);
    CurrentBelowNext(v.revision, owner);
    forall ref ensures CurrentAt(v.notebooks, owner, page.serverRevision, ApplyPage(replica, page), ref) {
      if ref.owner == owner && LatestRevision(v.notebooks.log, ref) <= page.serverRevision {
        assert CurrentAt(v.revision, owner, since, replica, ref);
        if LatestRevision(v.notebooks.log, ref) <= since {
          CurrentIfOld(v, owner, since, limit, replica, ref);
        } else {
          CurrentIfNew(v, owner, since, limit, replica, ref);
        }
      }
    }
  }

  /******* Progress *******/

  lemma {:induction false} FilterSorted(log: seq<Entry>, p: Entry -> bool)
    requires Sorted(log)
    ensures Sorted(Seqs.Filter(log, p))
  {
    if log != [] {
      hide Sorted;
      var rest, last := log[..|log| - 1], log[|log| - 1];
      SortedEnds(log);
      FilterSorted(rest, p);
      SortedAppend(Seqs.Filter(rest, p), last);
    } else {
      NoneSorted();
    }
  }

  lemma NoneSorted()
    ensures Sorted([])
  {
  }

  lemma SortedEnds(log: seq<Entry>)
    requires Sorted(log) && log != []
    ensures Sorted(log[..|log| - 1]) && forall e :: e in log[..|log| - 1] ==> e.revision < log[|log| - 1].revision
  {
    var rest := log[..|log| - 1];
    forall e | e in rest ensures e.revision < log[|log| - 1].revision {
      var i :| 0 <= i < |rest| && rest[i] == e;
      assert log[i] == e;
    }
  }

  lemma SortedAppend(log: seq<Entry>, last: Entry)
    requires Sorted(log) && forall e :: e in log ==> e.revision < last.revision
    ensures Sorted(log + [last])
  {
    forall i | 0 <= i < |log| ensures log[i].revision < last.revision { assert log[i] in log; }
  }

  /** A page takes as many rows as its limit allows, and there is more exactly when rows beyond it are left. */
  lemma PageFillsItsLimit(v: View, owner: string, since: nat, limit: nat)
    requires limit >= 1 && Sorted(v.page.log)
    ensures
      var page, current := PageOf(v, owner, since, limit), CurrentRevision(v.revision.log, owner);
      var rows := Window(v.page.log, owner, since, current);
      && page.visible == (if |rows| <= limit then |rows| else limit)
      && (page.hasMore <==> exists e :: e in v.page.log && InWindow(e, owner, page.serverRevision, current))
  {
    hide LatestInWindow, Fetch, CurrentRevision;
    var page, current := PageOf(v, owner, since, limit), CurrentRevision(v.revision.log, owner);
    var rows := Window(v.page.log, owner, since, current);
    FilterSorted(v.page.log, e => InWindow(e, owner, since, current));
    WindowIs(v.page.log, owner, since, current);
    hide Sorted, Window;
    if |rows| > limit {
      InRows(rows, limit - 1, limit);
      assert page.serverRevision == rows[limit - 1].revision;
      assert rows[limit] in v.page.log && InWindow(rows[limit], owner, page.serverRevision, current);
    } else if rows != [] {
      assert page.serverRevision == rows[|rows| - 1].revision;
      assert rows[|rows| - 1] in rows;
      forall e | e in v.page.log ensures !InWindow(e, owner, page.serverRevision, current) {
        if InWindow(e, owner, since, current) { NoneBeyond(rows, e); }
      }
    }
  }

  lemma InRows(rows: seq<Entry>, i: nat, j: nat)
    requires Sorted(rows) && i < j < |rows|
    ensures rows[j] in rows && rows[i].revision < rows[j].revision
  {
  }

  lemma NoneBeyond(rows: seq<Entry>, e: Entry)
    requires Sorted(rows) && e in rows
    ensures e.revision <= rows[|rows| - 1].revision
  {
    var i :| 0 <= i < |rows| && rows[i] == e;
    assert i < |rows| - 1 ==> rows[i].revision < rows[|rows| - 1].revision;
  }

  lemma WindowIs(log: seq<Entry>, owner: string, lo: nat, hi: nat)
    requires Sorted(Seqs.Filter(log, e => InWindow(e, owner, lo, hi)))
    ensures Sorted(Window(log, owner, lo, hi))
  {
  }

  /** The owner's current revision never drops, whatever happens to the log. */
  lemma CurrentNeverDrops(s: Store, t: Store, owner: string)
    requires LogOk(s) && LogOk(t) && Evolves(s, t)
    ensures CurrentRevision(s.log, owner) <= CurrentRevision(t.log, owner)
  {
    if CurrentRevision(s.log, owner) > 0 {
      var e :| e in s.log && e.ref.owner == owner && e.revision == CurrentRevision(s.log, owner);
      LatestIsMax(s.log, e.ref);
      assert Moved(s, t, e.ref);
      assert LatestRevision(t.log, e.ref) >= e.revision;
      CurrentIsMax(t.log, owner, Latest(t.log, e.ref).value);
    }
  }

  /** A client whose cursor came from the same server never has to reset it, and every page advances it. */
  lemma CursorAlwaysAdvances(earlier: Store, v: View, owner: string, since: nat, limit: nat)
    requires limit >= 1 && LogOk(earlier) && LogOk(v.revision) && Evolves(earlier, v.revision)
    requires since <= CurrentRevision(earlier.log, owner)
    ensures var page := PageOf(v, owner, since, limit);
      SafeRevisionCursor(page.serverRevision, since, page.hasMore) == Ok(page.serverRevision)
  {
    PageRevisionBounds(v, owner, since, limit);
    CurrentNeverDrops(earlier, v.revision, owner);
  }

  lemma WindowEndsAtMax(log: seq<Entry>, owner: string, lo: nat, hi: nat, e: Entry)
    requires Sorted(log) && e in log && InWindow(e, owner, lo, hi)
    ensures var rows := Window(log, owner, lo, hi);
      rows != [] && e.revision <= rows[|rows| - 1].revision
  {
    var rows := Window(log, owner, lo, hi);
    assert e in rows;
    FilterSorted(log, x => InWindow(x, owner, lo, hi));
    assert Sorted(rows);
    var i :| 0 <= i < |rows| && rows[i] == e;
  }

  lemma LastPageRevision(v: View, owner: string, since: nat, limit: nat)
    requires limit >= 1 && !PageOf(v, owner, since, limit).hasMore
    ensures var rows := Window(v.page.log, owner, since, CurrentRevision(v.revision.log, owner));
      rows != [] ==> PageOf(v, owner, since, limit).serverRevision == rows[|rows| - 1].revision
  {
  }

  /** Without writes meanwhile, a page with no successor has covered the whole log. */
  lemma LastPageCoversAll(s: Store, owner: string, since: nat, limit: nat, ref: Ref)
    requires Inv(s) && limit >= 1 && ref.owner == owner
    requires !PageOf(Still(s), owner, since, limit).hasMore
    ensures LatestRevision(s.log, ref) <= since || LatestRevision(s.log, ref) <= PageOf(Still(s), owner, since, limit).serverRevision
  {
    if LatestRevision(s.log, ref) > since {
      var e := Latest(s.log, ref).value;
      InvLog(s);
      hide Inv, LogOk, PageOf;
      CurrentIsMax(s.log, owner, e);
      LastPageRevision(Still(s), owner, since, limit);
      WindowEndsAtMax(s.log, owner, since, CurrentRevision(s.log, owner), e);
    }
  }

  /** Once `hasMore` is false and writes have stopped, the replica is the owner's live tables. */
  lemma QuiescentReplicaIsExact(s: Store, owner: string, since: nat, limit: nat, replica: map<Ref, Entity>, ref: Ref)
    requires Inv(s) && limit >= 1 && ref.owner == owner && since <= CurrentRevision(s.log, owner)
    requires UpToDate(s, owner, since, replica) && !PageOf(Still(s), owner, since, limit).hasMore
    ensures Lookup(ApplyPage(replica, PageOf(Still(s), owner, since, limit)), ref) == EntityAt(s, ref)
  {
    hide PageOf, ApplyPage;
    var page := PageOf(Still(s), owner, since, limit);
    EvolvesRefl(s);
    InvLog(s);
    CurrentBelowNext(s, owner);
    PageKeepsUpToDate(Still(s), owner, since, limit, replica);
    LastPageCoversAll(s, owner, since, limit, ref);
    CursorAlwaysAdvances(s, Still(s), owner, since, limit);
    assert CurrentAt(s, owner, page.serverRevision, ApplyPage(replica, page), ref);
  }

  /** A page that did not fit was seen, and it had at most twice the rows that are asked for now, or three for one. */
  ghost predicate HalvedFrom(views: nat -> View, j: nat, m: nat, owner: string, since: nat, l: nat, bytes: Page -> nat, maxBytes: nat) {
    m >= 1 && var page := PageOf(views(j), owner, since, m); page.visible > 1 && bytes(page) > maxBytes && page.visible <= 2 * l + 1
  }

  /** Attempt `k` saw the page with `l` rows asked for, and it fits. */
  ghost predicate Fits(views: nat -> View, k: nat, l: nat, owner: string, since: nat, bytes: Page -> nat, maxBytes: nat, page: Page) {
    l >= 1 && page == PageOf(views(k), owner, since, l) && (page.visible == 0 || bytes(page) <= maxBytes)
  }

  /** No more rows were given up than the halving needs. */
  ghost predicate Earned(views: nat -> View, k: nat, l: nat, owner: string, since: nat, limit: nat, bytes: Page -> nat, maxBytes: nat) {
    l == limit || exists j: nat, m: nat :: j < k && HalvedFrom(views, j, m, owner, since, l, bytes, maxBytes)
  }

  /** Halving ends in a page some attempt saw, within the limit and the byte budget, and no page is smaller than it must be. */
  lemma {:induction false} PullPageIsSomePage(views: nat -> View, attempt: nat, owner: string, since: nat, limit: nat, bytes: Page -> nat, maxBytes: nat)
    requires limit >= 1
    ensures
      var r := PullPage(views, attempt, owner, since, limit, bytes, maxBytes);
      && (r.Ok? ==> exists k: nat, l: nat :: attempt <= k && l <= limit
                      && Fits(views, k, l, owner, since, bytes, maxBytes, r.value)
                      && Earned(views, k, l, owner, since, limit, bytes, maxBytes))
      && (r.Err? ==> exists k: nat, l: nat :: attempt <= k && 1 <= l <= limit
                       && PageOf(views(k), owner, since, l).visible == 1 && bytes(PageOf(views(k), owner, since, l)) > maxBytes)
    decreases limit
  {
    hide PageOf;
    var page := PageOf(views(attempt), owner, since, limit);
    PageRevisionBounds(views(attempt), owner, since, limit);
    if page.visible > 1 && bytes(page) > maxBytes {
      var half := Larger(1, page.visible / 2);
      assert HalvedFrom(views, attempt, limit, owner, since, half, bytes, maxBytes);
      PullPageIsSomePage(views, attempt + 1, owner, since, half, bytes, maxBytes);
      var r := PullPage(views, attempt + 1, owner, since, half, bytes, maxBytes);
      if r.Ok? {
        var k: nat, l: nat :| attempt + 1 <= k && l <= half && Fits(views, k, l, owner, since, bytes, maxBytes, r.value)
          && Earned(views, k, l, owner, since, half, bytes, maxBytes);
        assert Earned(views, k, l, owner, since, limit, bytes, maxBytes);
      }
    } else {
      if page.visible == 0 || bytes(page) <= maxBytes {
        assert Fits(views, attempt, limit, owner, since, bytes, maxBytes, page) && Earned(views, attempt, limit, owner, since, limit, bytes, maxBytes);
      }
    }
  }

  /******* Draining *******/

  /** Pull until there is nothing more, with an arbitrary page size for each page. */
  function Drain(s: Store, owner: string, cursor: nat, replica: map<Ref, Entity>, limits: nat -> nat, k: nat): map<Ref, Entity>
    decreases CurrentRevision(s.log, owner) - cursor
  {
    var page := PageOf(Still(s), owner, cursor, Larger(1, limits(k)));
    var replica' := ApplyPage(replica, page);
    PageRevisionBounds(Still(s), owner, cursor, Larger(1, limits(k)));
    if page.hasMore then Drain(s, owner, page.serverRevision, replica', limits, k + 1) else replica'
  }

  /** What draining leaves: the tables for what was logged after the cursor, the old replica for the rest. */
  function Drained(s: Store, cursor: nat, replica: map<Ref, Entity>, owner: string, ref: Ref): Option<Entity> {
    if ref.owner == owner && LatestRevision(s.log, ref) > cursor then EntityAt(s, ref) else Lookup(replica, ref)
  }

  lemma OtherOwnersUntouched(v: View, owner: string, since: nat, limit: nat, replica: map<Ref, Entity>, ref: Ref)
    requires limit >= 1 && ref.owner != owner
    ensures Lookup(ApplyPage(replica, PageOf(v, owner, since, limit)), ref) == Lookup(replica, ref)
  {
    AppliedAt(v, owner, since, limit, replica, ref);
  }

  lemma PageDrains(s: Store, owner: string, cursor: nat, limit: nat, replica: map<Ref, Entity>, ref: Ref)
    requires Inv(s) && limit >= 1 && ref.owner == owner
    ensures
      var page := PageOf(Still(s), owner, cursor, limit);
      var after := Lookup(ApplyPage(replica, page), ref);
      && (LatestRevision(s.log, ref) <= cursor ==> after == Lookup(replica, ref))
      && (cursor < LatestRevision(s.log, ref) <= page.serverRevision ==> after == EntityAt(s, ref))
  {
    EvolvesRefl(s);
    var page := PageOf(Still(s), owner, cursor, limit);
    if LatestRevision(s.log, ref) <= cursor {
      AppliedAt(Still(s), owner, cursor, limit, replica, ref);
      Untouched(Still(s), owner, cursor, page.serverRevision, ref);
    } else if LatestRevision(s.log, ref) <= page.serverRevision {
      CurrentIfNew(Still(s), owner, cursor, limit, replica, ref);
    }
  }

  lemma {:induction false} DrainLeaves(s: Store, owner: string, cursor: nat, replica: map<Ref, Entity>, limits: nat -> nat, k: nat, ref: Ref)
    requires Inv(s)
    ensures Lookup(Drain(s, owner, cursor, replica, limits, k), ref) == Drained(s, cursor, replica, owner, ref)
    decreases CurrentRevision(s.log, owner) - cursor
  {
    hide PageOf, Inv, ApplyPage;
    var limit := Larger(1, limits(k));
    var page := PageOf(Still(s), owner, cursor, limit);
    PageRevisionBounds(Still(s), owner, cursor, limit);
    if ref.owner == owner {
      PageDrains(s, owner, cursor, limit, replica, ref);
    } else {
      OtherOwnersUntouched(Still(s), owner, cursor, limit, replica, ref);
    }
    if page.hasMore {
      DrainLeaves(s, owner, page.serverRevision, ApplyPage(replica, page), limits, k + 1, ref);
    } else if ref.owner == owner {
      LastPageCoversAll(s, owner, cursor, limit, ref);
    }
  }

  /******* Compaction *******/

  predicate Survives(log: seq<Entry>, e: Entry, who: Option<string>) {
    (who.Some? && who.value != e.ref.owner) || e.revision == LatestRevision(log, e.ref)
  }

  function Survivors(log: seq<Entry>, who: Option<string>): Entry -> bool {
    (e: Entry) => Survives(log, e, who)
  }

  /** Delete every entry that is not its entity's newest, for one owner or for all. */
  function Compact(s: Store, who: Option<string>): Store {
    s.(log := Seqs.Filter(s.log, Survivors(s.log, who)))
  }

  lemma {:induction false} LatestOfFilter(log: seq<Entry>, p: Entry -> bool, ref: Ref)
    requires Latest(log, ref).Some? ==> p(Latest(log, ref).value)
    ensures Latest(Seqs.Filter(log, p), ref) == Latest(log, ref)
  {
    if log != [] {
      var rest, last := log[..|log| - 1], log[|log| - 1];
      if last.ref == ref {
        LatestAppend(Seqs.Filter(rest, p), last, ref);
      } else {
        LatestOfFilter(rest, p, ref);
        LatestAppend(Seqs.Filter(rest, p), last, ref);
      }
    }
  }

  /** Compaction is one more server operation: every entity keeps its latest entry, rows and tombstones stay. */
  lemma CompactKeeps(s: Store, who: Option<string>)
    requires Inv(s)
    ensures var t := Compact(s, who);
      && Inv(t) && Evolves(s, t) && Rises(s, t)
      && t.rows == s.rows && t.tombs == s.tombs && t.nextRevision == s.nextRevision
      && (forall ref :: Latest(t.log, ref) == Latest(s.log, ref))
  {
    var t := Compact(s, who);
    FilterSorted(s.log, Survivors(s.log, who));
    forall ref ensures Latest(t.log, ref) == Latest(s.log, ref) {
      LatestOfFilter(s.log, Survivors(s.log, who), ref);
    }
    forall ref ensures EntityOk(t, ref) && Moved(s, t, ref) && RisesAt(s, t, ref) {
      assert EntityOk(s, ref);
    }
  }

  /** Compaction keeps one entry per entity in its scope, and every entry outside it. */
  lemma CompactIsMinimal(s: Store, who: Option<string>)
    requires Inv(s)
    ensures forall d, e :: (d in Compact(s, who).log && e in Compact(s, who).log && d.ref == e.ref
              && (who.None? || who.value == e.ref.owner)) ==> d == e
    ensures forall e :: e in s.log && who.Some? && who.value != e.ref.owner ==> e in Compact(s, who).log
  {
    forall d, e | d in Compact(s, who).log && e in Compact(s, who).log && d.ref == e.ref && (who.None? || who.value == e.ref.owner)
      ensures d == e
    {
      LatestIsMax(s.log, e.ref);
    }
  }

  /** No reader can tell: draining the compacted log from any cursor ends in the same replica. */
  lemma CompactionIsInvisible(s: Store, who: Option<string>, owner: string, cursor: nat, replica: map<Ref, Entity>,
                              limits: nat -> nat, limits': nat -> nat)
    requires Inv(s)
    ensures Drain(Compact(s, who), owner, cursor, replica, limits, 0) == Drain(s, owner, cursor, replica, limits', 0)
  {
    hide Inv, Drain, Compact, Lookup;
    var t := Compact(s, who);
    CompactKeeps(s, who);
    var a, b := Drain(t, owner, cursor, replica, limits, 0), Drain(s, owner, cursor, replica, limits', 0);
    forall ref ensures Lookup(a, ref) == Lookup(b, ref) {
      DrainLeaves(t, owner, cursor, replica, limits, 0, ref);
      DrainLeaves(s, owner, cursor, replica, limits', 0, ref);
    }
    LookupExtensional(a, b);
  }

  /** The current revision of every owner survives compaction. */
  lemma CompactKeepsCurrent(s: Store, who: Option<string>, owner: string)
    requires Inv(s)
    ensures CurrentRevision(Compact(s, who).log, owner) == CurrentRevision(s.log, owner)
  {
    var t := Compact(s, who);
    CompactKeeps(s, who);
    CurrentNeverDrops(s, t, owner);
    if CurrentRevision(t.log, owner) > 0 {
      var e :| e in t.log && e.ref.owner == owner && e.revision == CurrentRevision(t.log, owner);
      CurrentIsMax(s.log, owner, e);
    }
  }

  lemma LookupExtensional(a: map<Ref, Entity>, b: map<Ref, Entity>)
    requires forall ref :: Lookup(a, ref) == Lookup(b, ref)
    ensures a == b
  {
    forall ref ensures ref in a <==> ref in b {
      assert Lookup(a, ref) == Lookup(b, ref);
    }
    forall ref | ref in a ensures a[ref] == b[ref] {
      assert Lookup(a, ref) == Lookup(b, ref);
    }
  }
}
