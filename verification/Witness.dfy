/**
  Stores and requests at which eager loading is not what a caller may expect: two
  domains with two certificates, and the failures that `NestedLoop`, `Stale` and
  `Fresh` delimit.
 */
module Witness {
  import opened Sql
  import opened Schema
  import opened Catalog
  import opened Plan
  import opened Join
  import opened Projection
  import opened Terminal
  import opened Edges
  import opened Traversal
  import opened NestedLoop
  import opened Stale
  import opened Fresh

  function DomainRow(id: Uuid): Row {
    map["id" := Id(id), "tenant_id" := Id(0)]
  }

  function CertificateRow(id: Uuid, domain: Uuid): Row {
    map["id" := Id(id), "domain_id" := Id(domain)]
  }

  function Store(domains: seq<Row>, certificates: seq<Row>): Db {
    e => if e == DOMAIN then domains else if e == CERTIFICATE then certificates else []
  }

  function TwoDomains(): seq<Row> {
    [DomainRow(1), DomainRow(2)]
  }

  function Plain(e: Entity): Selection {
    Selection(e, [], None, None, None, [], [], None)
  }

  lemma Different()
    ensures DOMAIN != CERTIFICATE
  {
    assert |DOMAIN.name| != |CERTIFICATE.name|;
  }

  lemma StoreIsValid(domains: seq<Row>, certificates: seq<Row>)
    requires DistinctIds(domains) && DistinctIds(certificates)
    requires forall r | r in domains :: ValidRow(DOMAIN, r)
    requires forall r | r in certificates :: ValidRow(CERTIFICATE, r)
    ensures ValidDb(Store(domains, certificates))
    ensures Store(domains, certificates)(DOMAIN) == domains
    ensures Store(domains, certificates)(CERTIFICATE) == certificates
  {
    Different();
  }

  lemma PlainRows(p: Plan, db: Db)
    requires WellFormed(p) && ValidDb(db) && p.sel == Plain(p.sel.entity)
    ensures |Cells(p, db)| == |db(p.sel.entity)|
    ensures forall r :: r in RawRows(p, db) <==> r in db(p.sel.entity)
  {
    RawIsSortedFilter(p, db);
    FilterCountsAll(db(p.sel.entity));
  }

  lemma {:induction false} FilterCountsAll(rows: seq<Row>)
    ensures Filter([], rows) == rows
  {
    if rows != [] {
      FilterCountsAll(rows[1..]);
    }
  }

  // ---------------------------------------------------------------------
  // A limit on the certificates of each domain
  // ---------------------------------------------------------------------

  /** `Domain.Query().WithCertificates(Limit(1))`. */
  function OneCertificateEach(): (p: Plan)
    ensures WellFormed(p) && FieldsValid(p)
  {
    EdgesMeet();
    Plan(Plain(DOMAIN), None, Some(Plan(Plain(CERTIFICATE).(limit := Some(1)), None, None)))
  }

  function OneEach(): Db {
    Store(TwoDomains(), [CertificateRow(11, 1), CertificateRow(12, 2)])
  }

  lemma OneEachIsValid()
    ensures ValidDb(OneEach())
    ensures OneEach()(DOMAIN) == TwoDomains()
    ensures OneEach()(CERTIFICATE) == [CertificateRow(11, 1), CertificateRow(12, 2)]
  {
    StoreIsValid(TwoDomains(), [CertificateRow(11, 1), CertificateRow(12, 2)]);
  }

  lemma EachHasChild(m: Plan, cells: Row)
    requires m.sel.entity == CERTIFICATE && m.sel.preds == [] && IdOf(cells) in {1, 2}
    ensures HasChild(m, cells, OneEach())
  {
    OneEachIsValid();
    var child := if IdOf(cells) == 1 then CertificateRow(11, 1) else CertificateRow(12, 2);
    var certificates := OneEach()(CERTIFICATE);
    assert child == certificates[0] || child == certificates[1];
    assert Holds(ColumnIn("domain_id", [IdOf(cells)]), child);
  }

  /** Each domain has one certificate, and each is asked for at most one; one domain gets none. */
  lemma LimitWitness()
    ensures var p, db := OneCertificateEach(), OneEach();
            ValidDb(db) && Run(p, db).Success? && Run(p, db) != Success(Naive(p, db))
  {
    hide HasChild, Run, Naive, NaiveMany, Cells, RawRows;
    var p, db := OneCertificateEach(), OneEach();
    OneEachIsValid();
    ValidFieldsRun(p, db);
    PlainRows(p, db);
    CellIds(p, db);
    forall j | 0 <= j < |Cells(p, db)|
      ensures HasChild(p.many.value, Cells(p, db)[j], db)
    {
      var raw := RawRows(p, db)[j];
      assert raw in RawRows(p, db) && IdsOf(Cells(p, db))[j] == IdsOf(RawRows(p, db))[j];
      assert IdOf(Cells(p, db)[j]) == IdOf(raw);
      EachHasChild(p.many.value, Cells(p, db)[j]);
    }
    var i := LimitStarvesParent(p, db);
    RunCells(p, db);
    NaiveList(p, db, i);
  }

  // ---------------------------------------------------------------------
  // A traversal that is not unique
  // ---------------------------------------------------------------------

  /** The rows that a traversal over the many-to-one edge yields: the target of each row it comes from. */
  function Follow(e: Entity, from: seq<Row>, targets: seq<Row>): seq<Row>
    requires e.one.Some?
  {
    if from == [] then []
    else
      var key := ForeignKey(e, from[0]);
      (if key.None? then [] else Filter([ColumnIn("id", [key.value])], targets)) + Follow(e, from[1..], targets)
  }

  /** `Certificate.Query().QueryDomain().Unique(false).WithCertificates()`. */
  function DomainsOfCertificates(): (p: Plan)
    ensures WellFormed(p) && FieldsValid(p)
  {
    EdgesMeet();
    var path: Path := (db: Db) => Follow(CERTIFICATE, db(CERTIFICATE), db(DOMAIN));
    Plan(
      Plain(DOMAIN).(unique := Some(false), path := Some(path)), None, Some(Plan(Plain(CERTIFICATE), None, None)))
  }

  function TwoOfOne(): Db {
    Store(TwoDomains(), [CertificateRow(11, 1), CertificateRow(12, 1)])
  }

  lemma TwoOfOneIsValid()
    ensures ValidDb(TwoOfOne())
    ensures TwoOfOne()(DOMAIN) == TwoDomains()
    ensures TwoOfOne()(CERTIFICATE) == [CertificateRow(11, 1), CertificateRow(12, 1)]
  {
    StoreIsValid(TwoDomains(), [CertificateRow(11, 1), CertificateRow(12, 1)]);
  }

  lemma FirstDomainFound()
    ensures Filter([ColumnIn("id", [1])], TwoDomains()) == [DomainRow(1)]
  {
    var pred := ColumnIn("id", [1]);
    FilterOfOne(pred, [DomainRow(1)]);
    assert TwoDomains() == [DomainRow(1)] + [DomainRow(2)];
    FilterConcat([pred], [DomainRow(1)], [DomainRow(2)]);
    assert !Holds([pred][0], DomainRow(2));
    NothingPasses([pred], [DomainRow(2)]);
  }

  /** Both certificates lead to the first domain. */
  lemma FollowedTwice()
    ensures From(DomainsOfCertificates().sel, TwoOfOne()) == [DomainRow(1), DomainRow(1)]
  {
    hide Filter;
    EdgesMeet();
    TwoOfOneIsValid();
    FirstDomainFound();
    var one, two := CertificateRow(11, 1), CertificateRow(12, 1);
    assert [one, two][1..] == [two] && [two][1..] == [];
    assert ForeignKey(CERTIFICATE, one) == ForeignKey(CERTIFICATE, two) == Some(1);
    assert Follow(CERTIFICATE, [two], TwoDomains()) == [DomainRow(1)] + Follow(CERTIFICATE, [], TwoDomains());
    assert Follow(CERTIFICATE, [one, two], TwoDomains()) ==
           [DomainRow(1)] + Follow(CERTIFICATE, [two], TwoDomains());
  }

  lemma FirstDomainHasChildren(m: Plan)
    requires m.sel == Plain(CERTIFICATE)
    ensures ChildRows(m, DomainRow(1), TwoOfOne()) != []
  {
    EdgesMeet();
    TwoOfOneIsValid();
    var child := TwoOfOne()(CERTIFICATE)[0];
    assert child in TwoOfOne()(CERTIFICATE);
    assert child in ChildRows(m, DomainRow(1), TwoOfOne());
  }

  /** The domain of two certificates is returned twice, and only its second copy has the certificates. */
  lemma TraversalWitness()
    ensures var p, db := DomainsOfCertificates(), TwoOfOne();
            ValidDb(db) && StartsInTable(p, db) && Run(p, db) != Success(Naive(p, db))
  {
    hide ChildRows, Run, Naive, Follow;
    var p, db, r := DomainsOfCertificates(), TwoOfOne(), DomainRow(1);
    TwoOfOneIsValid();
    FollowedTwice();
    assert TwoDomains()[0] == r;
    UndistinctTraversalIff(p, db);
    FirstDomainHasChildren(p.many.value);
    assert multiset([r, r])[r] > 1 && AllHold(p.sel.preds, r);
  }

  // ---------------------------------------------------------------------
  // A second run
  // ---------------------------------------------------------------------

  /** `Certificate.Query().WithDomain()`. */
  function CertificatesWithDomain(): (p: Plan)
    ensures WellFormed(p) && FieldsValid(p)
  {
    EdgesMeet();
    Plan(Plain(CERTIFICATE), Some(Plan(Plain(DOMAIN), None, None)), None)
  }

  function CertificateOf(domain: Uuid): Db {
    Store(TwoDomains(), [CertificateRow(11, domain)])
  }

  lemma CertificateOfIsValid(domain: Uuid)
    ensures ValidDb(CertificateOf(domain))
    ensures CertificateOf(domain)(DOMAIN) == TwoDomains()
    ensures CertificateOf(domain)(CERTIFICATE) == [CertificateRow(11, domain)]
  {
    StoreIsValid(TwoDomains(), [CertificateRow(11, domain)]);
  }

  lemma OnlyKey(domain: Uuid)
    ensures var p, db := CertificatesWithDomain(), CertificateOf(domain);
            && |Cells(p, db)| == 1 && ForeignKey(CERTIFICATE, Cells(p, db)[0]) == Some(domain)
            && OneKeys(p, Cells(p, db)) == [domain]
  {
    var p, db := CertificatesWithDomain(), CertificateOf(domain);
    CertificateOfIsValid(domain);
    PlainRows(p, db);
    SpecHoldsId(p.sel, true);
    var raw := RawRows(p, db);
    assert raw[0] in raw;
    CellsKeepKeys(CERTIFICATE, SpecColumns(p.sel, true), raw[0]);
    assert KeysOf(CERTIFICATE, Cells(p, db)) == [Some(domain)];
    OneFirstKey(domain);
  }

  lemma OneFirstKey(k: Uuid)
    ensures FirstKeys([Some(k)]) == [k]
  {
    assert [Some(k)][..0] == [];
  }

  lemma SecondDomainPasses(c: Plan, db: Db)
    requires c.sel == Plain(DOMAIN) && db(DOMAIN) == TwoDomains()
    ensures TargetPasses(c, 2, db)
  {
    var r := db(DOMAIN)[1];
    assert r in db(DOMAIN) && IdOf(r) == 2 && AllHold(c.sel.preds, r);
  }

  /** The certificate moves to the other domain between two runs of one builder: the second run does not find it. */
  lemma StaleWitness()
    ensures var p, before, now := CertificatesWithDomain(), CertificateOf(1), CertificateOf(2);
            ValidDb(before) && ValidDb(now) && Run(After(p, before), now) != Run(p, now)
  {
    hide Run, After, Cells, OneKeys;
    var p, before, now := CertificatesWithDomain(), CertificateOf(1), CertificateOf(2);
    CertificateOfIsValid(1);
    CertificateOfIsValid(2);
    OnlyKey(1);
    OnlyKey(2);
    SecondRunFindsIff(p, before, now, 0);
    SecondDomainPasses(p.one.value, now);
    assert InvalidFields(p.sel) == [];
  }
}
