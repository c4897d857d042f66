/** The rules of the mirror in times and versions: which entity of a page is copied, removed on either side, or in dispute. */
module MirrorRules {
  import opened Wrappers
  import opened SyncSpec
  import opened Tables
  import opened Push
  import opened Pull
  import opened Mirror

  /** What may go over a row has a higher version and is not older. */
  predicate NewerAndHigher(aTime: Time, aVersion: int, bTime: Time, bVersion: int) {
    aTime >= bTime && aVersion > bVersion
  }

  lemma StampsCompare(x: Entity, y: Entity, tomb: Tombstone)
    ensures CanSourceOverwriteTarget(x, y) <==> NewerAndHigher(x.UpdatedAt(), x.Version(), y.UpdatedAt(), y.Version())
    ensures CanTombstoneOverwriteRecord(tomb, y) <==> NewerAndHigher(tomb.deletedAt, tomb.version, y.UpdatedAt(), y.Version())
    ensures RecordWinsOverTombstone(x, tomb) <==> Outlives(x, tomb)
  {
  }

  /** The target has no change that was not mirrored outward, but by this pass. */
  predicate Free(t: Store, ref: Ref, outbound: nat, mirrored: set<Ref>) {
    ref in mirrored || LatestRevision(t.log, ref) <= outbound
  }

  /** The page brings a record of the entity. */
  predicate Brings(page: Page, e: Entry) { e.op == Upsert && e.ref in page.fetched }

  /** The listed record goes to the target. */
  ghost predicate Copied(t: Store, page: Page, outbound: nat, mirrored: set<Ref>, e: Entry) {
    Brings(page, e) &&
    var x, free := page.fetched[e.ref], Free(t, e.ref, outbound, mirrored);
    if e.ref in t.rows then
      var y := t.rows[e.ref].entity;
      if ContentOf(x) == ContentOf(y) then x.Version() > y.Version()
      else free && NewerAndHigher(x.UpdatedAt(), x.Version(), y.UpdatedAt(), y.Version())
    else e.ref in t.tombs ==> free && Outlives(x, t.tombs[e.ref])
  }

  /** The listed deletion removes the target's record, if it is deleted there too or the source's tombstone may go over it. */
  ghost predicate RemovedThere(s: Store, t: Store, outbound: nat, mirrored: set<Ref>, e: Entry) {
    e.op == Delete && e.ref !in s.rows &&
    (e.ref in t.rows && t.rows[e.ref].entity.DeletedAt().None? ==>
       var y := t.rows[e.ref].entity;
       Free(t, e.ref, outbound, mirrored) && e.ref in s.tombs
       && NewerAndHigher(s.tombs[e.ref].deletedAt, s.tombs[e.ref].version, y.UpdatedAt(), y.Version()))
  }

  /** The listed record is deleted on both sides and not the newer one, so the source drops its own. */
  ghost predicate RemovedHere(t: Store, page: Page, outbound: nat, mirrored: set<Ref>, e: Entry) {
    Brings(page, e) && page.fetched[e.ref].DeletedAt().Some? && !Copied(t, page, outbound, mirrored, e)
    && if e.ref in t.rows then ContentOf(page.fetched[e.ref]) != ContentOf(t.rows[e.ref].entity) && t.rows[e.ref].entity.DeletedAt().Some?
       else e.ref in t.tombs
  }

  /** Two contents, or a content and a deletion, of which neither may go over the other. */
  ghost predicate Disputed(s: Store, t: Store, page: Page, outbound: nat, mirrored: set<Ref>, e: Entry) {
    if e.op == Delete then
      e.ref !in s.rows && e.ref in t.rows && t.rows[e.ref].entity.DeletedAt().None? && !RemovedThere(s, t, outbound, mirrored, e)
    else
      && Brings(page, e) && !Copied(t, page, outbound, mirrored, e)
      && if e.ref in t.rows then
           && ContentOf(page.fetched[e.ref]) != ContentOf(t.rows[e.ref].entity)
           && (page.fetched[e.ref].DeletedAt().None? || t.rows[e.ref].entity.DeletedAt().None?)
         else e.ref in t.tombs && page.fetched[e.ref].DeletedAt().None?
  }

  /** The decisions of the page are these rules. */
  lemma DecisionsAreTheRules(s: Store, t: Store, page: Page, outbound: nat, mirrored: set<Ref>, e: Entry)
    ensures var d := Decide(s, t, page, outbound, mirrored, e);
      && (d.Copy? <==> Copied(t, page, outbound, mirrored, e))
      && (d == DeleteTarget <==> RemovedThere(s, t, outbound, mirrored, e))
      && (d == DeleteSource <==> RemovedHere(t, page, outbound, mirrored, e))
      && (d == Diverge <==> Disputed(s, t, page, outbound, mirrored, e))
  {
    hide NewerAndHigher, Outlives, CanSourceOverwriteTarget, CanTombstoneOverwriteRecord, RecordWinsOverTombstone, RecordsDiffer, ContentOf;
    if e.ref in t.rows && e.ref in s.tombs {
      StampsCompare(t.rows[e.ref].entity, t.rows[e.ref].entity, s.tombs[e.ref]);
    }
    if Brings(page, e) {
      var x := page.fetched[e.ref];
      if e.ref in t.rows {
        StampsCompare(x, t.rows[e.ref].entity, Tombstone(0, "", 0));
        RecordsDifferIffContentDiffers(x, t.rows[e.ref].entity);
      } else if e.ref in t.tombs {
        StampsCompare(x, x, t.tombs[e.ref]);
      }
    }
  }

  /** The page writes the entity on the target: a copy, or a deletion. */
  ghost predicate Touches(s: Store, t: Store, page: Page, outbound: nat, mirrored: set<Ref>, e: Entry) {
    Copied(t, page, outbound, mirrored, e) || RemovedThere(s, t, outbound, mirrored, e)
  }

  /** What a page adds to the mirrored set is what it copies and what it deletes on the target. */
  lemma WrittenIs(s: Store, t: Store, page: Page, outbound: nat, mirrored: set<Ref>, ref: Ref)
    ensures ref in Mirror.Written(page.changes, Decider(s, t, page, outbound, mirrored)) <==>
      exists e :: e in page.changes && e.ref == ref && Touches(s, t, page, outbound, mirrored, e)
  {
    hide Decide, Copied, RemovedThere;
    forall e | e in page.changes
      ensures var d := Decide(s, t, page, outbound, mirrored, e); (d.Copy? || d == DeleteTarget) <==> Touches(s, t, page, outbound, mirrored, e)
    {
      DecisionsAreTheRules(s, t, page, outbound, mirrored, e);
    }
  }
}
