/** What small pages of the mirror do, for runs that are written out. */
module MirrorExamples {
  import opened Wrappers
  import opened SyncSpec
  import opened Tables
  import opened Push
  import opened Pull
  import opened Mirror
  import opened MirrorPage
  import Seqs

  /** A page of one entry: the plan holds its decision and nothing else. */
  lemma OneDecision(entry: Entry, f: Entry -> Decision)
    ensures f(entry) != Diverge ==> !Diverges([entry], f)
    ensures f(entry) != DeleteSource ==> Deleted([entry], f, DeleteSource) == []
    ensures f(entry) != DeleteTarget ==> Deleted([entry], f, DeleteTarget) == []
    ensures !f(entry).Copy? ==> PlanRequest([entry], f) == Request([], [])
    ensures f(entry).Copy? && entry.ref.kind == NoteKind ==> PlanRequest([entry], f) == Request([], [Change(f(entry).record, f(entry).base)])
    ensures f(entry).Copy? && entry.ref.kind == NotebookKind ==> PlanRequest([entry], f) == Request([Change(f(entry).record, f(entry).base)], [])
  {
    assert [entry][..0] == [];
    assert Copies([], f, NoteKind) == [] && Copies([], f, NotebookKind) == [];
    EmptyOrNot(Deleted([entry], f, DeleteSource));
    EmptyOrNot(Deleted([entry], f, DeleteTarget));
  }

  lemma EmptyOrNot(refs: seq<Ref>)
    ensures refs == [] || exists ref :: ref in refs
  {
    if refs != [] {
      assert refs[0] in refs;
    }
  }

  /** A page of one note that is copied as `w`. */
  lemma CopyNotePage(p: Pass, owner: string, outbound: nat, turn: Turn, x: Entity, entry: Entry, base: int, w: Entity, more: bool)
    requires turn.limit >= 1 && Rows(p.source) && x.NoteEntity? && x.Version() >= 1
    requires RefOf(owner, w) == entry.ref && entry.ref.kind == NoteKind && entry.op == Upsert
    requires PageOf(Still(p.source), owner, p.cursor, turn.limit) == Page(entry.revision, [entry], map[entry.ref := x], more, 1)
    requires DecideUpsert(x, p.target, entry.ref, Clean(p.target, entry.ref, outbound, p.mirrored)) == Copy(x, base)
    requires NoteVerdict(p.target, owner, Change(x, base), MIRROR) == Push.Written(w)
    ensures var r := TakePage(p, owner, outbound, turn);
      r.Ok? && r.value == Pass(p.source, Put(p.target, entry.ref, w, turn.now), entry.revision, p.mirrored + {entry.ref},
        p.refsKept && RefsArrive(p.target, owner, [Change(x, base)]))
  {
    hide PageOf, DecideUpsert, NoteVerdict, Put, Clean, Run, RefsArrive, Deleted, Rows, DeleteAll, Diverges, PlanRequest;
    var page := PageOf(Still(p.source), owner, p.cursor, turn.limit);
    var f := Decider(p.source, p.target, page, outbound, p.mirrored);
    assert f(entry) == Copy(x, base);
    OneDecision(entry, f);
    NothingDeleted(p.source, turn.now);
    NothingDeleted(p.target, turn.now);
    RunOfOneNote(p.target, owner, turn.scan, Change(x, base), MIRROR, turn.now);
    assert Mirror.Written([entry], f) == {entry.ref} by { assert entry in [entry]; }
    assert ApplyVerdicts(p.target, owner, [], turn.now) == p.target;
  }

  /** A page of one notebook that is copied as `w`. */
  lemma CopyBookPage(p: Pass, owner: string, outbound: nat, turn: Turn, x: Entity, entry: Entry, base: int, w: Entity, more: bool)
    requires turn.limit >= 1 && Rows(p.source) && x.NotebookEntity? && x.Version() >= 1
    requires RefOf(owner, w) == entry.ref && entry.ref.kind == NotebookKind && entry.op == Upsert
    requires PageOf(Still(p.source), owner, p.cursor, turn.limit) == Page(entry.revision, [entry], map[entry.ref := x], more, 1)
    requires DecideUpsert(x, p.target, entry.ref, Clean(p.target, entry.ref, outbound, p.mirrored)) == Copy(x, base)
    requires NotebookVerdict(p.target, owner, turn.scan, Acc([], map[], {}), Change(x, base), MIRROR) == Push.Written(w)
    ensures var r := TakePage(p, owner, outbound, turn);
      r.Ok? && r.value == Pass(p.source, Put(p.target, entry.ref, w, turn.now), entry.revision, p.mirrored + {entry.ref}, p.refsKept)
  {
    hide PageOf, DecideUpsert, NotebookVerdict, Put, Clean, Run, Deleted, Rows, DeleteAll, Diverges, PlanRequest;
    var page := PageOf(Still(p.source), owner, p.cursor, turn.limit);
    var f := Decider(p.source, p.target, page, outbound, p.mirrored);
    assert f(entry) == Copy(x, base);
    OneDecision(entry, f);
    NothingDeleted(p.source, turn.now);
    NothingDeleted(p.target, turn.now);
    RunOfOneNotebook(p.target, owner, turn.scan, Change(x, base), MIRROR, turn.now);
    assert Mirror.Written([entry], f) == {entry.ref} by { assert entry in [entry]; }
  }

  /** A page of one entry that is skipped. */
  lemma SkipPage(p: Pass, owner: string, outbound: nat, turn: Turn, x: Entity, entry: Entry, more: bool)
    requires turn.limit >= 1 && Rows(p.source) && entry.op == Upsert
    requires PageOf(Still(p.source), owner, p.cursor, turn.limit) == Page(entry.revision, [entry], map[entry.ref := x], more, 1)
    requires DecideUpsert(x, p.target, entry.ref, Clean(p.target, entry.ref, outbound, p.mirrored)) == Skip
    ensures var r := TakePage(p, owner, outbound, turn);
      r.Ok? && r.value == Pass(p.source, p.target, entry.revision, p.mirrored, p.refsKept)
  {
    hide PageOf, DecideUpsert, Clean, Run, Deleted, Rows, DeleteAll, Diverges, PlanRequest;
    var page := PageOf(Still(p.source), owner, p.cursor, turn.limit);
    var f := Decider(p.source, p.target, page, outbound, p.mirrored);
    assert f(entry) == Skip;
    OneDecision(entry, f);
    NothingDeleted(p.source, turn.now);
    NothingDeleted(p.target, turn.now);
    RunOfNothing(p.target, owner, turn.scan, MIRROR, turn.now);
    assert Mirror.Written([entry], f) == {};
  }

  /** A page of nothing. */
  lemma EmptyPage(p: Pass, owner: string, outbound: nat, turn: Turn, revision: nat)
    requires turn.limit >= 1 && Rows(p.source)
    requires PageOf(Still(p.source), owner, p.cursor, turn.limit) == Page(revision, [], map[], false, 0)
    ensures var r := TakePage(p, owner, outbound, turn);
      r.Ok? && r.value == Pass(p.source, p.target, revision, p.mirrored, p.refsKept)
  {
    hide PageOf, Run, Rows, DeleteAll, Decide;
    var page := PageOf(Still(p.source), owner, p.cursor, turn.limit);
    var f := Decider(p.source, p.target, page, outbound, p.mirrored);
    assert Copies([], f, NoteKind) == [] && Copies([], f, NotebookKind) == [];
    EmptyOrNot(Deleted([], f, DeleteSource));
    EmptyOrNot(Deleted([], f, DeleteTarget));
    NothingDeleted(p.source, turn.now);
    NothingDeleted(p.target, turn.now);
    RunOfNothing(p.target, owner, turn.scan, MIRROR, turn.now);
    assert Mirror.Written([], f) == {};
  }

  /******* Pages of written-out logs *******/

  /** The entries of the owner beyond the cursor are `old` and then `e`, the last of the log up to its revision. */
  lemma PageOfOne(s: Store, owner: string, cursor: nat, limit: nat, e: Entry, more: bool)
    requires limit >= 1 && e.op == Upsert && e.ref in s.rows && cursor < e.revision <= CurrentRevision(s.log, owner)
    requires var w := Window(s.log, owner, cursor, CurrentRevision(s.log, owner));
      w != [] && w[0] == e && (if more then limit == 1 && |w| > 1 else |w| == 1)
    requires LatestInWindow(s.log, owner, cursor, e.revision) == [e]
    ensures PageOf(Still(s), owner, cursor, limit) == Page(e.revision, [e], map[e.ref := s.rows[e.ref].entity], more, 1)
  {
    hide Window, LatestInWindow, CurrentRevision;
    var w := Window(s.log, owner, cursor, CurrentRevision(s.log, owner));
    assert w[..1] == [e];
    assert !more ==> w == [e];
    assert Fetch(Still(s), [e]) == map[e.ref := s.rows[e.ref].entity] by {
      assert e in [e];
    }
  }

  /******* Pages of one row *******/

  /** The byte measure of rows that are each as large as the budget. */
  function OneEach(): Page -> nat { (page: Page) => page.visible }

  function SameTables(s: Store): nat -> View { (k: nat) => Still(s) }

  /** The page the source's reader serves for its own limit of 1000 log rows, when each row fills the byte budget. */
  function ServedPage(s: Store, owner: string, since: nat): Result<Page, string> {
    PullPage(SameTables(s), 0, owner, since, DEFAULT_PULL_LIMIT, OneEach(), 1)
  }

  /** Then every page is halved until it holds one row. */
  lemma LargeRowsComeOneByOne(s: Store, owner: string, since: nat)
    ensures ServedPage(s, owner, since) == Ok(PageOf(Still(s), owner, since, 1))
  {
    hide PageOf;
    HalvedToOne(s, owner, since, 0, DEFAULT_PULL_LIMIT);
  }

  lemma {:induction false} HalvedToOne(s: Store, owner: string, since: nat, attempt: nat, limit: nat)
    requires limit >= 1
    ensures PullPage(SameTables(s), attempt, owner, since, limit, OneEach(), 1) == Ok(PageOf(Still(s), owner, since, 1))
    decreases limit
  {
    hide PageOf;
    var page := PageOf(Still(s), owner, since, limit);
    PageRevisionBounds(Still(s), owner, since, limit);
    if page.visible > 1 {
      HalvedToOne(s, owner, since, attempt + 1, Larger(1, page.visible / 2));
    } else {
      SmallPage(s, owner, since, limit);
    }
  }

  lemma SmallPage(s: Store, owner: string, since: nat, limit: nat)
    requires limit >= 1 && PageOf(Still(s), owner, since, limit).visible <= 1
    ensures PageOf(Still(s), owner, since, limit) == PageOf(Still(s), owner, since, 1)
  {
    hide Window, LatestInWindow, CurrentRevision, Fetch;
    var w := Window(s.log, owner, since, CurrentRevision(s.log, owner));
    assert |w| == 1 ==> w[..1] == w;
  }

  lemma FilterLast<T(!new)>(s: seq<T>, x: T, p: T -> bool)
    ensures Seqs.Filter(s + [x], p) == Seqs.Filter(s, p) + (if p(x) then [x] else [])
  {
    assert (s + [x])[..|s|] == s;
  }

  lemma WindowLast(log: seq<Entry>, x: Entry, owner: string, lo: nat, hi: nat)
    ensures Window(log + [x], owner, lo, hi) == Window(log, owner, lo, hi) + (if InWindow(x, owner, lo, hi) then [x] else [])
  {
    FilterLast(log, x, e => InWindow(e, owner, lo, hi));
  }

  lemma WindowNone(owner: string, lo: nat, hi: nat)
    ensures Window([], owner, lo, hi) == []
  {
  }

  lemma CurrentLast(log: seq<Entry>, x: Entry, owner: string)
    requires x.ref.owner == owner
    ensures CurrentRevision(log + [x], owner) == x.revision
  {
    assert (log + [x])[..|log|] == log;
  }

  lemma UpToLast(log: seq<Entry>, x: Entry, ref: Ref, hi: nat)
    ensures LatestUpTo(log + [x], ref, hi) == if x.ref == ref && x.revision <= hi then Some(x) else LatestUpTo(log, ref, hi)
  {
    assert (log + [x])[..|log|] == log;
  }

  lemma UpToNone(ref: Ref, hi: nat)
    ensures LatestUpTo([], ref, hi) == None
  {
  }

  /** The only entry of a window is the latest of its entity in it. */
  lemma LatestInOne(log: seq<Entry>, owner: string, lo: nat, hi: nat, e: Entry)
    requires Window(log, owner, lo, hi) == [e] && LatestUpTo(log, e.ref, hi) == Some(e)
    ensures LatestInWindow(log, owner, lo, hi) == [e]
  {
    hide LatestUpTo;
    var p := (x: Entry) => InWindow(x, owner, lo, hi);
    var q := (x: Entry) => InWindow(x, owner, lo, hi) && LatestUpTo(log, x.ref, hi) == Some(x);
    assert Seqs.Filter(log, p) == Window(log, owner, lo, hi);
    assert Seqs.Filter(log, q) == LatestInWindow(log, owner, lo, hi);
    forall x | x in log && p(x) ensures q(x) {
      assert x in Seqs.Filter(log, p);
    }
    FilterAgree(log, p, q);
  }

  lemma {:induction false} FilterAgree<T(!new)>(s: seq<T>, p: T -> bool, q: T -> bool)
    requires forall x :: x in s ==> p(x) == q(x)
    ensures Seqs.Filter(s, p) == Seqs.Filter(s, q)
  {
    if s != [] {
      var front := s[..|s| - 1];
      forall x | x in front ensures x in s {}
      FilterAgree(front, p, q);
      assert s[|s| - 1] in s;
    }
  }
}
