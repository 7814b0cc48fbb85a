/** The backfill that links drilling records to their project's site, only where there is no choice. */
module SiteBackfill {
  import opened Options

  type Uuid = nat

  datatype LocationType = HeadOffice | Workshop | Warehouse | ProjectSite | Yard | FuelStorage | Other
  datatype Location = Location(organization: Uuid, project: Option<Uuid>, active: bool, archived: bool,
                               kind: LocationType)
  datatype Record = Record(organization: Uuid, project: Uuid, site: Option<Uuid>)

  type Locations = map<Uuid, Location>
  type Records = map<Uuid, Record>

  predicate Eligible(record: Record, site: Location) {
    && site.project == Some(record.project) && site.organization == record.organization
    && site.active && !site.archived && site.kind != HeadOffice
  }

  /** What the counting subquery counts. */
  function Candidates(record: Record, sites: Locations): set<Uuid> {
    set id | id in sites && Eligible(record, sites[id])
  }

  /** The WHERE clause, on one pair of the join of records and sites. */
  predicate Joins(record: Record, id: Uuid, sites: Locations) {
    && id in sites && record.site.None? && Eligible(record, sites[id])
    && |Candidates(record, sites)| == 1
  }

  // --- the statement's meaning ----------------------------------------------------------------------

  /** What the statement may do to one row: SQL takes any joined site, and does not say which. */
  ghost predicate MayBecome(before: Record, after: Record, sites: Locations) {
    if exists id: Uuid :: Joins(before, id, sites)
    then exists id: Uuid :: Joins(before, id, sites) && after == before.(site := Some(id))
    else after == before
  }

  ghost predicate Outcome(before: Records, after: Records, sites: Locations) {
    && after.Keys == before.Keys
    && forall r :: r in before ==> MayBecome(before[r], after[r], sites)
  }

  /** The promise: exactly one eligible site, and none chosen before. */
  function Linked(record: Record, sites: Locations): Record {
    if record.site.None? && |Candidates(record, sites)| == 1
    then record.(site := Some(Only(Candidates(record, sites))))
    else record
  }

  function Only(s: set<Uuid>): (x: Uuid)
    requires |s| == 1
    ensures s == {x}
  {
    var x :| x in s;
    OnlyOne(s, x);
    x
  }

  lemma OnlyOne(s: set<Uuid>, x: Uuid)
    requires |s| == 1 && x in s
    ensures s == {x}
  {
    assert |s - {x}| == 0;
  }

  function Backfilled(records: Records, sites: Locations): Records {
    map r | r in records :: Linked(records[r], sites)
  }

  /** However SQL picks among joined rows, the result is the promised one, and it can be reached. */
  lemma OutcomeIsUnique(before: Records, after: Records, sites: Locations)
    ensures Outcome(before, after, sites) <==> after == Backfilled(before, sites)
  {
    forall r | r in before && r in after
      ensures MayBecome(before[r], after[r], sites) <==> after[r] == Linked(before[r], sites)
    {
      JoinedIsOnly(before[r], sites);
    }
  }

  lemma JoinedIsOnly(record: Record, sites: Locations)
    ensures forall id: Uuid :: Joins(record, id, sites) <==>
      record.site.None? && Candidates(record, sites) == {id}
    ensures (exists id: Uuid :: Joins(record, id, sites)) <==> record.site.None? && |Candidates(record, sites)| == 1
  {
    var candidates := Candidates(record, sites);
    if |candidates| == 1 {
      assert candidates == {Only(candidates)};
      assert record.site.None? ==> Only(candidates) in candidates && Joins(record, Only(candidates), sites);
    }
    forall id: Uuid
      ensures Joins(record, id, sites) <==> record.site.None? && candidates == {id}
    {
      if record.site.None? && candidates == {id} { assert id in candidates; }
      if Joins(record, id, sites) { OnlyOne(candidates, id); }
    }
  }

  /** A null site is set exactly when one eligible site exists, and to that site; a site once set is
      never overwritten, and no other column or row changes. */
  lemma LinksExactlyTheUnambiguous(records: Records, sites: Locations, r: Uuid)
    requires r in records
    ensures var after := Backfilled(records, sites);
      && after.Keys == records.Keys && after[r].(site := None) == records[r].(site := None)
      && (records[r].site.Some? ==> after[r].site == records[r].site)
      && (records[r].site.None? ==> forall id ::
            after[r].site == Some(id) <==>
              && id in sites && Eligible(records[r], sites[id])
              && forall other :: other in sites && Eligible(records[r], sites[other]) ==> other == id)
      && (records[r].site.None? ==> forall id ::
            after[r].site == Some(id) <==>
              {id} == set s | s in sites && sites[s].project == Some(records[r].project)
                              && sites[s].organization == records[r].organization
                              && sites[s].active && !sites[s].archived && sites[s].kind != HeadOffice)
  {
    assert Candidates(records[r], sites) ==
           set s | s in sites && sites[s].project == Some(records[r].project)
                   && sites[s].organization == records[r].organization
                   && sites[s].active && !sites[s].archived && sites[s].kind != HeadOffice;
    forall id | id in sites && Eligible(records[r], sites[id])
                && forall other :: other in sites && Eligible(records[r], sites[other]) ==> other == id
      ensures Candidates(records[r], sites) == {id}
    {}
    if |Candidates(records[r], sites)| == 1 {
      assert Candidates(records[r], sites) == {Only(Candidates(records[r], sites))};
      forall other | other in sites && Eligible(records[r], sites[other])
        ensures other == Only(Candidates(records[r], sites))
      {
        assert other in Candidates(records[r], sites);
      }
      assert Only(Candidates(records[r], sites)) in Candidates(records[r], sites);
    }
  }

  /** Any second outcome of the statement equals the first. */
  lemma RepeatChangesNothing(before: Records, once: Records, twice: Records, sites: Locations)
    requires Outcome(before, once, sites) && Outcome(once, twice, sites)
    ensures twice == once
  {
    OutcomeIsUnique(before, once, sites);
    OutcomeIsUnique(once, twice, sites);
    forall r | r in once ensures twice[r] == once[r] {
      assert Candidates(once[r], sites) == Candidates(before[r], sites);
    }
  }

  /** Later statements, whatever has become of the sites, never move a record that has one. */
  lemma LinkIsForGood(records: Records, sites: Locations, later: Locations, r: Uuid)
    requires r in records && Backfilled(records, sites)[r].site.Some?
    ensures Backfilled(Backfilled(records, sites), later)[r] == Backfilled(records, sites)[r]
  {
  }

  // --- the two tables, updated in place -----------------------------------------------------------

  class DrillingTables {
    var drillHoles: Records
    var shiftReports: Records
    var locations: Locations

    constructor (drillHoles: Records, shiftReports: Records, locations: Locations)
      ensures this.drillHoles == drillHoles && this.shiftReports == shiftReports && this.locations == locations
    {
      this.drillHoles, this.shiftReports, this.locations := drillHoles, shiftReports, locations;
    }

    /** One UPDATE, visiting the rows and picking the joined sites in any order. */
    method Update(records: Records) returns (after: Records)
      ensures Outcome(records, after, locations)
    {
      after := records;
      var todo := records.Keys;
      while todo != {}
        invariant todo <= records.Keys && after.Keys == records.Keys
        invariant forall r :: r in todo ==> after[r] == records[r]
        invariant forall r :: r in records.Keys - todo ==> MayBecome(records[r], after[r], locations)
        decreases |todo|
      {
        var r :| r in todo;
        if exists id :: id in locations && Joins(records[r], id, locations) {
          var id :| id in locations && Joins(records[r], id, locations);
          after := after[r := records[r].(site := Some(id))];
        }
        todo := todo - {r};
      }
    }

    method Upgrade()
      modifies this`drillHoles, this`shiftReports
      ensures drillHoles == Backfilled(old(drillHoles), locations)
      ensures shiftReports == Backfilled(old(shiftReports), locations)
    {
      for table := 0 to 2
        invariant drillHoles == if table > 0 then Backfilled(old(drillHoles), locations) else old(drillHoles)
        invariant shiftReports == if table > 1 then Backfilled(old(shiftReports), locations) else old(shiftReports)
      {
        var before := if table == 0 then drillHoles else shiftReports;
        var after := Update(before);
        OutcomeIsUnique(before, after, locations);
        if table == 0 { drillHoles := after; } else { shiftReports := after; }
      }
    }
  }
}
