/** Whole passes and the three-pass synchronisation of two databases. */
module MirrorSync {
  import opened Wrappers
  import opened SyncSpec
  import opened Tables
  import opened Push
  import opened Pull
  import opened Mirror
  import opened MirrorPage
  import opened MirrorRuns
  import FreshNames

  /******* One pass *******/

  ghost predicate Limited(turns: nat -> Turn) { forall k :: turns(k).limit >= 1 }

  /** Both databases consistent, both cursors behind their logs. */
  ghost predicate PassOk(p: Pass, outbound: nat) {
    && Inv(p.source) && Inv(p.target) && TidyRows(p.source) && TidyRows(p.target)
    && p.cursor < p.source.nextRevision && outbound < p.target.nextRevision
  }

  lemma PageKeepsPassOk(p: Pass, owner: string, outbound: nat, turn: Turn)
    requires PassOk(p, outbound) && turn.limit >= 1 && Rows(p.source) && TakePage(p, owner, outbound, turn).Ok?
    ensures var q := TakePage(p, owner, outbound, turn).value;
      && PassOk(q, outbound)
      && Evolves(p.source, q.source) && Evolves(p.target, q.target) && Rises(p.source, q.source) && Rises(p.target, q.target)
      && (q.refsKept ==> p.refsKept)
      && q.cursor == PageOf(Still(p.source), owner, p.cursor, turn.limit).serverRevision
  {
    hide Inv, TidyRows, Evolves, Rises, Rows, TakePage, Details, PageOf, Run, Effective, Begin, Ended, Diverged;
    DetailsFacts(p, owner, outbound, turn);
    NextIsTaken(p, owner, outbound, turn);
    PageKeeps(p, owner, outbound, turn);
    PageNeverLowers(p, owner, outbound, turn);
    EndedTaken(p, owner, outbound, turn);
    PageKeepsTidy(p, owner, outbound, turn);
    PageBelowNext(p.source, owner, p.cursor, turn.limit);
    EvolvesNext(p.source, TakePage(p, owner, outbound, turn).value.source);
    EvolvesNext(p.target, TakePage(p, owner, outbound, turn).value.target);
  }

  lemma EvolvesNext(s: Store, t: Store)
    requires Evolves(s, t)
    ensures s.nextRevision <= t.nextRevision
  {
  }

  /** A page with a successor either removed rows from the source or left the source alone and moved the cursor. */
  lemma PageProgress(p: Pass, owner: string, outbound: nat, turn: Turn)
    requires PassOk(p, outbound) && turn.limit >= 1 && Rows(p.source) && TakePage(p, owner, outbound, turn).Ok?
    ensures var q := TakePage(p, owner, outbound, turn).value;
      |q.source.rows| < |p.source.rows| || q.source == p.source
  {
    hide Inv, TidyRows, Rows, TakePage, Details, PageOf, Run, PlanOk, Evolves, Rises, DeleteAll;
    var d := Details(p, owner, outbound, turn);
    DetailsFacts(p, owner, outbound, turn);
    NextIsTaken(p, owner, outbound, turn);
    var gone := Deleted(d.page.changes, d.f, DeleteSource);
    if gone == [] {
      NothingDeleted(p.source, turn.now);
    } else {
      assert gone[0] in gone;
      var e :| e in d.page.changes && d.f(e) == DeleteSource && e.ref == gone[0];
      SourceDeleted(p, owner, outbound, turn, e);
      DeleteAllKeeps(p.source, gone, turn.now);
      FewerRows(p.source, d.next.source, gone, e.ref);
    }
  }

  lemma FewerRows(s: Store, t: Store, gone: seq<Ref>, ref: Ref)
    requires ref in s.rows && ref !in t.rows
    requires forall r :: r !in gone ==> SameAt(s, t, r)
    requires forall r :: r in gone ==> r !in t.rows
    ensures |t.rows| < |s.rows|
  {
    forall r | r in t.rows ensures r in s.rows {
      assert SameAt(s, t, r);
      assert RowAt(s, r) == RowAt(t, r);
    }
    assert t.rows.Keys <= s.rows.Keys - {ref};
    FreshNames.SubsetIsSmaller(t.rows.Keys, s.rows.Keys - {ref});
  }

  /**
   syncEntityOwnerOneWay: pages until the source has no more, with one reset of a cursor the source has fallen behind.
   `turns` is what the environment decides for each page.
   */
  ghost function PassFrom(p: Pass, owner: string, outbound: nat, turns: nat -> Turn, k: nat, reset: bool): Result<Pass, string>
    requires PassOk(p, outbound) && Limited(turns)
    decreases if reset then 0 else 1, |p.source.rows|, p.source.nextRevision - p.cursor
  {
    var page := PageOf(Still(p.source), owner, p.cursor, turns(k).limit);
    InvRows(p.source);
    if page.serverRevision < p.cursor && !reset then PassFrom(p.(cursor := 0), owner, outbound, turns, k + 1, true)
    else if SafeRevisionCursor(page.serverRevision, p.cursor, page.hasMore).Err? then Err("Cursor did not advance")
    else
      var next := TakePage(p, owner, outbound, turns(k));
      if next.Err? || !page.hasMore then next
      else
        PageKeepsPassOk(p, owner, outbound, turns(k));
        PageProgress(p, owner, outbound, turns(k));
        PassFrom(next.value, owner, outbound, turns, k + 1, reset)
  }

  /** The invariant of a pass, weak (the target may hold newer changes) or strong. */
  ghost predicate Ahead(p: Pass, owner: string, outbound: nat, weak: bool) {
    forall ref: Ref :: ref.owner == owner ==> AheadAt(p, outbound, weak, ref)
  }

  ghost predicate AheadAt(p: Pass, outbound: nat, weak: bool, ref: Ref) {
    LatestRevision(p.source.log, ref) <= p.cursor ==>
      Agree(p.source, p.target, ref) || (weak && LatestRevision(p.target.log, ref) > outbound)
  }

  ghost predicate AgreeOrNewer(s: Store, t: Store, outbound: nat, weak: bool, ref: Ref) {
    Agree(s, t, ref) || (weak && LatestRevision(t.log, ref) > outbound)
  }

  /** What a pass promises about every entity when it ends and no copied note lost a reference. */
  ghost predicate Finished(p: Pass, owner: string, outbound: nat, weak: bool) {
    forall ref: Ref :: ref.owner == owner ==> AgreeOrNewer(p.source, p.target, outbound, weak, ref)
  }

  /** One page of the invariant, at one entity. */
  lemma AheadStep(p: Pass, owner: string, outbound: nat, turn: Turn, weak: bool, ref: Ref)
    requires PassOk(p, outbound) && turn.limit >= 1 && Rows(p.source) && ref.owner == owner
    requires AheadAt(p, outbound, weak, ref)
    requires TakePage(p, owner, outbound, turn).Ok? && TakePage(p, owner, outbound, turn).value.refsKept
    ensures AheadAt(TakePage(p, owner, outbound, turn).value, outbound, weak, ref)
    ensures LatestRevision(p.source.log, ref) <= p.cursor || LatestRevision(p.source.log, ref) <= TakePage(p, owner, outbound, turn).value.cursor
      ==> (var q := TakePage(p, owner, outbound, turn).value; AgreeOrNewer(q.source, q.target, outbound, weak, ref))
  {
    hide *;
    var q := TakePage(p, owner, outbound, turn).value;
    NextIsTaken(p, owner, outbound, turn);
    PassOkParts(p, outbound);
    PageOutcome(p, owner, outbound, turn, ref);
    PageKeepsPassOk(p, owner, outbound, turn);
    EvolvesAt(p.source, q.source, ref);
    EvolvesAt(p.target, q.target, ref);
    DetailsFacts(p, owner, outbound, turn);
    PageBelowNext(p.source, owner, p.cursor, turn.limit);
    AheadCases(p, q, outbound, weak, ref);
  }

  lemma PassOkParts(p: Pass, outbound: nat)
    requires PassOk(p, outbound)
    ensures Inv(p.source) && Inv(p.target) && TidyRows(p.source) && TidyRows(p.target)
    ensures p.cursor < p.source.nextRevision && outbound < p.target.nextRevision
  {
  }

  lemma EvolvesAt(s: Store, t: Store, ref: Ref)
    requires Evolves(s, t)
    ensures Moved(s, t, ref)
  {
  }

  lemma AheadCases(p: Pass, q: Pass, outbound: nat, weak: bool, ref: Ref)
    requires AheadAt(p, outbound, weak, ref) && Moved(p.source, q.source, ref) && Moved(p.target, q.target, ref)
    requires q.cursor < p.source.nextRevision && outbound < p.target.nextRevision
    requires
      || Agree(q.source, q.target, ref)
      || (&& SameAt(p.source, q.source, ref) && SameAt(p.target, q.target, ref)
          && (LatestRevision(p.source.log, ref) <= p.cursor || LatestRevision(p.source.log, ref) > q.cursor))
    ensures AheadAt(q, outbound, weak, ref)
    ensures LatestRevision(p.source.log, ref) <= p.cursor || LatestRevision(p.source.log, ref) <= q.cursor
      ==> AgreeOrNewer(q.source, q.target, outbound, weak, ref)
  {
    hide Agree;
    if !Agree(q.source, q.target, ref) && Agree(p.source, p.target, ref) {
      AgreeSame(p.source, p.target, q.source, q.target, ref);
    }
  }

  lemma AheadNext(p: Pass, owner: string, outbound: nat, turn: Turn, weak: bool)
    requires PassOk(p, outbound) && turn.limit >= 1 && Ahead(p, owner, outbound, weak) && Rows(p.source)
    requires TakePage(p, owner, outbound, turn).Ok? && TakePage(p, owner, outbound, turn).value.refsKept
    ensures Ahead(TakePage(p, owner, outbound, turn).value, owner, outbound, weak)
  {
    hide PassOk, Rows, TakePage, AheadAt;
    forall ref: Ref | ref.owner == owner ensures AheadAt(TakePage(p, owner, outbound, turn).value, outbound, weak, ref) {
      AheadStep(p, owner, outbound, turn, weak, ref);
    }
  }

  lemma LastPageFinishes(p: Pass, owner: string, outbound: nat, turn: Turn, weak: bool)
    requires PassOk(p, outbound) && turn.limit >= 1 && Ahead(p, owner, outbound, weak) && Rows(p.source)
    requires TakePage(p, owner, outbound, turn).Ok? && TakePage(p, owner, outbound, turn).value.refsKept
    requires !PageOf(Still(p.source), owner, p.cursor, turn.limit).hasMore
    ensures Finished(TakePage(p, owner, outbound, turn).value, owner, outbound, weak)
  {
    hide Inv, TidyRows, Rows, TakePage, AheadAt, PageOf, AgreeOrNewer;
    var q := TakePage(p, owner, outbound, turn).value;
    PageKeepsPassOk(p, owner, outbound, turn);
    forall ref: Ref | ref.owner == owner ensures AgreeOrNewer(q.source, q.target, outbound, weak, ref) {
      LastPageCoversAll(p.source, owner, p.cursor, turn.limit, ref);
      AheadStep(p, owner, outbound, turn, weak, ref);
    }
  }

  /** A pass keeps both databases consistent and never lowers a version or a tombstone version on either side. */
  lemma PassKeeps(p: Pass, owner: string, outbound: nat, turns: nat -> Turn, k: nat, reset: bool)
    requires PassOk(p, outbound) && Limited(turns)
    ensures var r := PassFrom(p, owner, outbound, turns, k, reset);
      r.Ok? ==>
        && PassOk(r.value, outbound) && (r.value.refsKept ==> p.refsKept)
        && Evolves(p.source, r.value.source) && Evolves(p.target, r.value.target)
        && Rises(p.source, r.value.source) && Rises(p.target, r.value.target)
    decreases if reset then 0 else 1, |p.source.rows|, p.source.nextRevision - p.cursor
  {
    hide Inv, TidyRows, Rows, TakePage, PageOf, Evolves, Rises;
    var page := PageOf(Still(p.source), owner, p.cursor, turns(k).limit);
    InvRows(p.source);
    if page.serverRevision < p.cursor && !reset {
      PassKeeps(p.(cursor := 0), owner, outbound, turns, k + 1, true);
    } else if SafeRevisionCursor(page.serverRevision, p.cursor, page.hasMore).Ok? && TakePage(p, owner, outbound, turns(k)).Ok? {
      var q := TakePage(p, owner, outbound, turns(k)).value;
      PageKeepsPassOk(p, owner, outbound, turns(k));
      if page.hasMore {
        PageProgress(p, owner, outbound, turns(k));
        PassKeeps(q, owner, outbound, turns, k + 1, reset);
        if PassFrom(q, owner, outbound, turns, k + 1, reset).Ok? {
          var r := PassFrom(q, owner, outbound, turns, k + 1, reset).value;
          InvLog(q.source);
          InvLog(q.target);
          EvolvesTrans(p.source, q.source, r.source);
          EvolvesTrans(p.target, q.target, r.target);
          RisesTrans(p.source, q.source, r.source);
          RisesTrans(p.target, q.target, r.target);
        }
      }
    }
  }

  lemma AheadEarlier(p: Pass, owner: string, outbound: nat, weak: bool)
    requires Ahead(p, owner, outbound, weak)
    ensures Ahead(p.(cursor := 0), owner, outbound, weak)
  {
    forall ref: Ref | ref.owner == owner ensures AheadAt(p.(cursor := 0), outbound, weak, ref) {
      assert AheadAt(p, outbound, weak, ref);
    }
  }

  /** A pass that ends well leaves every entity agreed, or (weak) with a change of the target still to be mirrored. */
  lemma PassFinishes(p: Pass, owner: string, outbound: nat, turns: nat -> Turn, k: nat, reset: bool, weak: bool)
    requires PassOk(p, outbound) && Limited(turns) && Ahead(p, owner, outbound, weak)
    ensures var r := PassFrom(p, owner, outbound, turns, k, reset);
      r.Ok? && r.value.refsKept ==> Finished(r.value, owner, outbound, weak)
    decreases if reset then 0 else 1, |p.source.rows|, p.source.nextRevision - p.cursor
  {
    hide Inv, TidyRows, Rows, TakePage, PageOf, Evolves, Rises, Ahead, Finished;
    var page := PageOf(Still(p.source), owner, p.cursor, turns(k).limit);
    InvRows(p.source);
    if page.serverRevision < p.cursor && !reset {
      AheadEarlier(p, owner, outbound, weak);
      PassFinishes(p.(cursor := 0), owner, outbound, turns, k + 1, true, weak);
    } else if SafeRevisionCursor(page.serverRevision, p.cursor, page.hasMore).Ok? && TakePage(p, owner, outbound, turns(k)).Ok? {
      var q := TakePage(p, owner, outbound, turns(k)).value;
      PageKeepsPassOk(p, owner, outbound, turns(k));
      if page.hasMore {
        PageProgress(p, owner, outbound, turns(k));
        PassKeeps(q, owner, outbound, turns, k + 1, reset);
        var r := PassFrom(q, owner, outbound, turns, k + 1, reset);
        if r.Ok? && r.value.refsKept {
          AheadNext(p, owner, outbound, turns(k), weak);
          PassFinishes(q, owner, outbound, turns, k + 1, reset, weak);
        }
      } else if q.refsKept {
        LastPageFinishes(p, owner, outbound, turns(k), weak);
      }
    }
  }

  /** The two-cursor invariant holds at every cursor a pass stores, even when it drops references. */
  lemma PassKeepsMirrorOk(p: Pass, owner: string, outbound: nat, turns: nat -> Turn, k: nat, reset: bool)
    requires PassOk(p, outbound) && Limited(turns) && MirrorOk(p.source, p.target, owner, p.cursor, outbound)
    ensures var r := PassFrom(p, owner, outbound, turns, k, reset);
      r.Ok? ==> MirrorOk(r.value.source, r.value.target, owner, r.value.cursor, outbound)
    decreases if reset then 0 else 1, |p.source.rows|, p.source.nextRevision - p.cursor
  {
    hide Inv, TidyRows, Rows, TakePage, PageOf, Evolves, Rises, MirrorOk;
    var page := PageOf(Still(p.source), owner, p.cursor, turns(k).limit);
    InvRows(p.source);
    if page.serverRevision < p.cursor && !reset {
      EarlierMirrorOk(p.source, p.target, owner, p.cursor, outbound);
      PassKeepsMirrorOk(p.(cursor := 0), owner, outbound, turns, k + 1, true);
    } else if SafeRevisionCursor(page.serverRevision, p.cursor, page.hasMore).Ok? && TakePage(p, owner, outbound, turns(k)).Ok? {
      PageKeepsPassOk(p, owner, outbound, turns(k));
      PageKeepsMirrorOk(p, owner, outbound, turns(k));
      if page.hasMore {
        PageProgress(p, owner, outbound, turns(k));
        PassKeepsMirrorOk(TakePage(p, owner, outbound, turns(k)).value, owner, outbound, turns, k + 1, reset);
      }
    }
  }

  lemma EarlierMirrorOk(s: Store, t: Store, owner: string, cursor: nat, outbound: nat)
    requires MirrorOk(s, t, owner, cursor, outbound)
    ensures MirrorOk(s, t, owner, 0, outbound)
  {
    forall ref: Ref | ref.owner == owner ensures SettledAt(s, t, 0, outbound, ref) {
      assert SettledAt(s, t, cursor, outbound, ref);
    }
  }

  /******* The three passes *******/

  /** Both databases and the two stored cursors. */
  datatype Pair = Pair(local: Store, remote: Store, localCursor: nat, remoteCursor: nat)

  ghost predicate PairOk(m: Pair, owner: string) {
    && Inv(m.local) && Inv(m.remote) && TidyRows(m.local) && TidyRows(m.remote)
    && m.localCursor < m.local.nextRevision && m.remoteCursor < m.remote.nextRevision
    && MirrorOk(m.local, m.remote, owner, m.localCursor, m.remoteCursor)
  }

  /** What the environment decides in the three passes. */
  datatype Script = Script(first: nat -> Turn, second: nat -> Turn, third: nat -> Turn)

  ghost predicate LimitedScript(turns: Script) { Limited(turns.first) && Limited(turns.second) && Limited(turns.third) }

  datatype Synced = Synced(pair: Pair, refsKept: bool)

  /** syncDatabases for one owner: remote to local, local to remote, remote to local. */
  ghost function SyncDatabases(m: Pair, owner: string, turns: Script): Result<Synced, string>
    requires PairOk(m, owner) && LimitedScript(turns)
  {
    var p1 := Pass(m.remote, m.local, m.remoteCursor, {}, true);
    var r1 := PassFrom(p1, owner, m.localCursor, turns.first, 0, false);
    PassKeeps(p1, owner, m.localCursor, turns.first, 0, false);
    if r1.Err? then Err(r1.error)
    else
      var p2 := Pass(r1.value.target, r1.value.source, m.localCursor, {}, r1.value.refsKept);
      var r2 := PassFrom(p2, owner, r1.value.cursor, turns.second, 0, false);
      PassKeeps(p2, owner, r1.value.cursor, turns.second, 0, false);
      if r2.Err? then Err(r2.error)
      else
        var p3 := Pass(r2.value.target, r2.value.source, r1.value.cursor, {}, r2.value.refsKept);
        var r3 := PassFrom(p3, owner, r2.value.cursor, turns.third, 0, false);
        if r3.Err? then Err(r3.error)
        else Ok(Synced(Pair(r3.value.target, r3.value.source, r2.value.cursor, r3.value.cursor), r3.value.refsKept))
  }

  /** The invariant of the pair is what the first pass starts from. */
  lemma FirstPassAhead(m: Pair, owner: string)
    requires PairOk(m, owner)
    ensures Ahead(Pass(m.remote, m.local, m.remoteCursor, {}, true), owner, m.localCursor, true)
  {
    var p := Pass(m.remote, m.local, m.remoteCursor, {}, true);
    forall ref: Ref | ref.owner == owner ensures AheadAt(p, m.localCursor, true, ref) {
      assert SettledAt(m.local, m.remote, m.localCursor, m.remoteCursor, ref);
    }
  }

  /** After the first pass whatever the local log holds up to its cursor agrees: the second pass starts strong. */
  lemma SecondPassAhead(p: Pass, owner: string, outbound: nat, cursor: nat, kept: bool)
    requires Finished(p, owner, outbound, true)
    ensures Ahead(Pass(p.target, p.source, outbound, {}, kept), owner, cursor, false)
  {
    var q := Pass(p.target, p.source, outbound, {}, kept);
    forall ref: Ref | ref.owner == owner ensures AheadAt(q, cursor, false, ref) {
      assert AgreeOrNewer(p.source, p.target, outbound, true, ref);
    }
  }

  lemma ThirdPassAhead(p: Pass, owner: string, outbound: nat, cursor: nat, next: nat, kept: bool)
    requires Finished(p, owner, outbound, false)
    ensures Ahead(Pass(p.target, p.source, cursor, {}, kept), owner, next, false)
  {
    var q := Pass(p.target, p.source, cursor, {}, kept);
    forall ref: Ref | ref.owner == owner ensures AheadAt(q, next, false, ref) {
      assert AgreeOrNewer(p.source, p.target, outbound, false, ref);
    }
  }

  /**
   Mirror agreement. From any state of the two-cursor invariant, for any page limits and row orders: when the three
   passes end without an error and no copied note lost a reference, the two databases hold the same live content of
   every note and notebook, and the invariant holds again.
   */
  lemma MirrorAgreement(m: Pair, owner: string, turns: Script, ref: Ref)
    requires PairOk(m, owner) && LimitedScript(turns) && ref.owner == owner
    requires SyncDatabases(m, owner, turns).Ok? && SyncDatabases(m, owner, turns).value.refsKept
    ensures var n := SyncDatabases(m, owner, turns).value.pair; Agree(n.local, n.remote, ref)
  {
    hide Inv, TidyRows, PassFrom, Ahead, AheadAt, Evolves, Rises, MirrorOk, Agree, Limited;
    var p1 := Pass(m.remote, m.local, m.remoteCursor, {}, true);
    FirstPassAhead(m, owner);
    PassFinishes(p1, owner, m.localCursor, turns.first, 0, false, true);
    PassKeeps(p1, owner, m.localCursor, turns.first, 0, false);
    var r1 := PassFrom(p1, owner, m.localCursor, turns.first, 0, false).value;
    var p2 := Pass(r1.target, r1.source, m.localCursor, {}, r1.refsKept);
    PassKeeps(p2, owner, r1.cursor, turns.second, 0, false);
    var r2 := PassFrom(p2, owner, r1.cursor, turns.second, 0, false).value;
    var p3 := Pass(r2.target, r2.source, r1.cursor, {}, r2.refsKept);
    PassKeeps(p3, owner, r2.cursor, turns.third, 0, false);
    var r3 := PassFrom(p3, owner, r2.cursor, turns.third, 0, false).value;
    assert r3.refsKept && r2.refsKept && r1.refsKept;
    SecondPassAhead(r1, owner, m.localCursor, r1.cursor, r1.refsKept);
    PassFinishes(p2, owner, r1.cursor, turns.second, 0, false, false);
    ThirdPassAhead(r2, owner, r1.cursor, r1.cursor, r2.cursor, r2.refsKept);
    PassFinishes(p3, owner, r2.cursor, turns.third, 0, false, false);
    assert AgreeOrNewer(r3.source, r3.target, r2.cursor, false, ref);
    AgreeSymmetric(r3.source, r3.target, ref);
  }

  lemma AgreeSymmetric(s: Store, t: Store, ref: Ref)
    ensures Agree(s, t, ref) <==> Agree(t, s, ref)
  {
  }

  /** A finished synchronisation leaves the pair ready for the next one, with no version lowered on either side. */
  lemma SyncKeepsPairOk(m: Pair, owner: string, turns: Script)
    requires PairOk(m, owner) && LimitedScript(turns) && SyncDatabases(m, owner, turns).Ok?
    ensures var n := SyncDatabases(m, owner, turns).value.pair;
      && PairOk(n, owner) && Evolves(m.local, n.local) && Evolves(m.remote, n.remote)
      && Rises(m.local, n.local) && Rises(m.remote, n.remote)
  {
    hide Inv, TidyRows, PassFrom, Evolves, Rises, MirrorOk, Limited;
    var p1 := Pass(m.remote, m.local, m.remoteCursor, {}, true);
    MirrorOkSymmetric(m.local, m.remote, owner, m.localCursor, m.remoteCursor);
    PassKeepsMirrorOk(p1, owner, m.localCursor, turns.first, 0, false);
    PassKeeps(p1, owner, m.localCursor, turns.first, 0, false);
    var r1 := PassFrom(p1, owner, m.localCursor, turns.first, 0, false).value;
    var p2 := Pass(r1.target, r1.source, m.localCursor, {}, r1.refsKept);
    MirrorOkSymmetric(r1.source, r1.target, owner, r1.cursor, m.localCursor);
    PassKeepsMirrorOk(p2, owner, r1.cursor, turns.second, 0, false);
    PassKeeps(p2, owner, r1.cursor, turns.second, 0, false);
    var r2 := PassFrom(p2, owner, r1.cursor, turns.second, 0, false).value;
    var p3 := Pass(r2.target, r2.source, r1.cursor, {}, r2.refsKept);
    MirrorOkSymmetric(r2.source, r2.target, owner, r2.cursor, r1.cursor);
    PassKeepsMirrorOk(p3, owner, r2.cursor, turns.third, 0, false);
    PassKeeps(p3, owner, r2.cursor, turns.third, 0, false);
    var r3 := PassFrom(p3, owner, r2.cursor, turns.third, 0, false).value;
    MirrorOkSymmetric(r3.source, r3.target, owner, r3.cursor, r2.cursor);
    InvLog(r1.source); InvLog(r1.target); InvLog(r2.source); InvLog(r2.target);
    EvolvesTrans(m.remote, r1.source, r2.target); EvolvesTrans(m.local, r1.target, r2.source);
    EvolvesTrans(m.remote, r2.target, r3.source); EvolvesTrans(m.local, r2.source, r3.target);
    RisesTrans(m.remote, r1.source, r2.target); RisesTrans(m.local, r1.target, r2.source);
    RisesTrans(m.remote, r2.target, r3.source); RisesTrans(m.local, r2.source, r3.target);
  }

  /** Two databases that were never mirrored, whatever they hold, satisfy the invariant. */
  lemma NewPairOk(local: Store, remote: Store, owner: string)
    requires Inv(local) && Inv(remote) && TidyRows(local) && TidyRows(remote)
    ensures PairOk(Pair(local, remote, 0, 0), owner)
  {
    InvLog(local);
    InvLog(remote);
    MirrorOkAtFirst(local, remote, owner);
  }
}
