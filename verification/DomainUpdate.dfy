/**
  Updates of domains. The setters collect what is to change in a mutation;
  `sqlSave` compiles the mutation into field and edge operations, and the
  database runs the clearing ones before the setting and adding ones.
 */
module DomainUpdate {
  import opened Sql
  import opened Certificates

  datatype Field = HostnameField | ServiceID | StatusField | VerifiedAt | TLSMode | CertificateStatus | UpdatedAtField

  predicate Nullable(f: Field) {
    f in {ServiceID, VerifiedAt, CertificateStatus}
  }

  /** What a mutation holds. */
  datatype Contents = Contents(
    fields: map<Field, Cell>,
    cleared: set<Field>,
    tenant: Option<Uuid>,
    tenantCleared: bool,
    added: set<Uuid>,
    removed: set<Uuid>,
    allCleared: bool
  ) {
    predicate HasEmptyHostname() {
      HostnameField in fields && fields[HostnameField] == Text("")
    }
  }

  const NO_CHANGES: Contents := Contents(map[], {}, None, false, {}, {}, false)

  datatype Call =
    | Set(field: Field, cell: Cell)
    | Clear(nullable: Field)
    | SetTenant(id: Uuid)
    | ClearTenant
    | AddCertificates(ids: seq<Uuid>)
    | RemoveCertificates(ids: seq<Uuid>)
    | ClearCertificates

  function Elements(ids: seq<Uuid>): set<Uuid> {
    set i | 0 <= i < |ids| :: ids[i]
  }

  /** A setter does not forget an earlier clear; removing forgets an earlier addition, clearing does not. */
  function Collect(call: Call, c: Contents): Contents {
    match call
    case Set(f, cell) => c.(fields := c.fields[f := cell])
    case Clear(f) => c.(fields := c.fields - {f}, cleared := c.cleared + {f})
    case SetTenant(id) => c.(tenant := Some(id))
    case ClearTenant => c.(tenantCleared := true)
    case AddCertificates(ids) => c.(added := c.added + Elements(ids))
    case RemoveCertificates(ids) => c.(added := c.added - Elements(ids), removed := c.removed + Elements(ids))
    case ClearCertificates => c.(allCleared := true)
  }

  function Collected(calls: seq<Call>): Contents {
    if calls == [] then NO_CHANGES else Collect(calls[|calls| - 1], Collected(calls[..|calls| - 1]))
  }

  // ---------------------------------------------------------------------
  // The mutation
  // ---------------------------------------------------------------------

  class DomainMutation {
    var fields: map<Field, Cell>
    var cleared: set<Field>
    var tenant: Option<Uuid>
    var tenantCleared: bool
    var certificates: set<Uuid>
    var removedCertificates: set<Uuid>
    var clearedCertificates: bool
    var done: bool
    var id: Option<Uuid>

    function Value(): Contents
      reads this
    {
      Contents(fields, cleared, tenant, tenantCleared, certificates, removedCertificates, clearedCertificates)
    }

    constructor (id: Option<Uuid>)
      ensures Value() == NO_CHANGES && !done && this.id == id
    {
      fields, cleared, tenant, tenantCleared := map[], {}, None, false;
      certificates, removedCertificates, clearedCertificates, done := {}, {}, false, false;
      this.id := id;
    }

    method AddCertificateIDs(ids: seq<Uuid>)
      modifies this`certificates
      ensures Value() == Collect(AddCertificates(ids), old(Value()))
    {
      for i := 0 to |ids|
        invariant certificates == old(certificates) + Elements(ids[..i])
      {
        assert ids[..i + 1] == ids[..i] + [ids[i]];
        ElementsOfPrefix(ids, i);
        certificates := certificates + {ids[i]};
      }
      assert ids[..|ids|] == ids;
    }

    method RemoveCertificateIDs(ids: seq<Uuid>)
      modifies this`certificates, this`removedCertificates
      ensures Value() == Collect(RemoveCertificates(ids), old(Value()))
    {
      for i := 0 to |ids|
        invariant certificates == old(certificates) - Elements(ids[..i])
        invariant removedCertificates == old(removedCertificates) + Elements(ids[..i])
      {
        ElementsOfPrefix(ids, i);
        certificates := certificates - {ids[i]};
        removedCertificates := removedCertificates + {ids[i]};
      }
      assert ids[..|ids|] == ids;
    }

    method Do(call: Call)
      requires call.Clear? ==> Nullable(call.nullable)
      modifies this
      ensures Value() == Collect(call, old(Value())) && done == old(done) && id == old(id)
    {
      match call
      case Set(f, cell) =>
        fields := fields[f := cell];
      case Clear(f) =>
        fields := fields - {f};
        cleared := cleared + {f};
      case SetTenant(t) =>
        tenant := Some(t);
      case ClearTenant =>
        tenantCleared := true;
      case AddCertificates(ids) =>
        AddCertificateIDs(ids);
      case RemoveCertificates(ids) =>
        RemoveCertificateIDs(ids);
      case ClearCertificates =>
        clearedCertificates := true;
    }
  }

  lemma ElementsOfPrefix(ids: seq<Uuid>, i: nat)
    requires i < |ids|
    ensures Elements(ids[..i + 1]) == Elements(ids[..i]) + {ids[i]}
  {
    assert forall k | 0 <= k < i :: ids[..i + 1][k] == ids[..i][k];
    assert ids[..i + 1][i] == ids[i];
  }

  // ---------------------------------------------------------------------
  // The operations
  // ---------------------------------------------------------------------

  datatype EdgeName = TenantEdge | CertificatesEdge

  /** A clear without ids clears the whole edge. */
  datatype EdgeOp = EdgeOp(edge: EdgeName, ids: seq<Uuid>)

  datatype UpdateSpec = UpdateSpec(
    fields: map<Field, Cell>,
    clearedFields: set<Field>,
    clear: seq<EdgeOp>,
    add: seq<EdgeOp>
  )

  datatype UpdateError = EmptyHostname | ClearingRequiredEdge | MissingID | InvalidColumn(name: string) | StoreError

  /** `check` of both update builders. */
  function Check(c: Contents): Option<UpdateError> {
    if c.HasEmptyHostname() then Some(EmptyHostname)
    else if c.tenantCleared && c.tenant.Some? then Some(ClearingRequiredEdge)
    else None
  }

  lemma NoElement<T>(s: set<T>)
    requires forall x :: x !in s
    ensures s == {}
  {
  }

  lemma HasElement(ids: set<Uuid>)
    requires ids != {}
    ensures exists x :: x in ids
  {
    if forall x :: x !in ids {
      NoElement(ids);
      assert false;
    }
  }

  /** A set as a list, in no particular order. */
  method Listed(ids: set<Uuid>) returns (r: seq<Uuid>)
    ensures Elements(r) == ids && |r| == |ids|
    ensures forall i, j | 0 <= i < j < |r| :: r[i] != r[j]
  {
    r := [];
    var rest := ids;
    while rest != {}
      invariant rest <= ids && Elements(r) == ids - rest && |r| + |rest| == |ids|
      invariant forall i, j | 0 <= i < j < |r| :: r[i] != r[j]
      decreases |rest|
    {
      HasElement(rest);
      var x :| x in rest;
      assert x !in Elements(r);
      assert forall i | 0 <= i < |r| :: r[i] in Elements(r);
      var longer := r + [x];
      assert longer[..|r|] == r && longer[..|r| + 1] == longer;
      ElementsOfPrefix(longer, |r|);
      r := longer;
      rest := rest - {x};
    }
  }

  /** The clear operations of a mutation, in order. */
  ghost predicate ClearsOf(c: Contents, ops: seq<EdgeOp>) {
    var tenant := if c.tenantCleared then [EdgeOp(TenantEdge, [])] else [];
    if c.allCleared then ops == tenant + [EdgeOp(CertificatesEdge, [])]
    else if c.removed != {} then
      && |ops| == |tenant| + 1 && ops[..|tenant|] == tenant
      && ops[|tenant|].edge == CertificatesEdge && Elements(ops[|tenant|].ids) == c.removed
    else ops == tenant
  }

  ghost predicate AddsOf(c: Contents, ops: seq<EdgeOp>) {
    var tenant := if c.tenant.Some? then [EdgeOp(TenantEdge, [c.tenant.value])] else [];
    if c.added != {} then
      && |ops| == |tenant| + 1 && ops[..|tenant|] == tenant
      && ops[|tenant|].edge == CertificatesEdge && Elements(ops[|tenant|].ids) == c.added
    else ops == tenant
  }

  ghost predicate SpecOfUpdate(c: Contents, spec: UpdateSpec) {
    && spec.fields == c.fields && spec.clearedFields == c.cleared
    && ClearsOf(c, spec.clear) && AddsOf(c, spec.add)
  }

  method EmitField(m: DomainMutation, f: Field, spec: UpdateSpec, ghost seen: set<Field>)
    returns (r: UpdateSpec, ghost now: set<Field>)
    requires EmittedFields(m.Value(), spec, seen)
    ensures EmittedFields(m.Value(), r, now) && now == seen + {f}
    ensures r.clear == spec.clear && r.add == spec.add
  {
    r, now := spec, seen + {f};
    if f in m.fields {
      r := r.(fields := r.fields[f := m.fields[f]]);
    }
    if f in m.cleared {
      r := r.(clearedFields := r.clearedFields + {f});
    }
  }

  ghost predicate EmittedFields(c: Contents, spec: UpdateSpec, seen: set<Field>) {
    && (forall f | f in seen :: f in c.fields ==> f in spec.fields && spec.fields[f] == c.fields[f])
    && (forall f | f in spec.fields :: f in seen && f in c.fields)
    && spec.clearedFields == c.cleared * seen
  }

  /** The part of `sqlSave` that the two builders share: the fields, then the edges. */
  method Emit(m: DomainMutation) returns (spec: UpdateSpec)
    ensures SpecOfUpdate(m.Value(), spec)
  {
    spec := UpdateSpec(map[], {}, [], []);
    ghost var seen := {};
    spec, seen := EmitField(m, HostnameField, spec, seen);
    spec, seen := EmitField(m, ServiceID, spec, seen);
    spec, seen := EmitField(m, StatusField, spec, seen);
    spec, seen := EmitField(m, VerifiedAt, spec, seen);
    spec, seen := EmitField(m, TLSMode, spec, seen);
    spec, seen := EmitField(m, CertificateStatus, spec, seen);
    spec, seen := EmitField(m, UpdatedAtField, spec, seen);
    AllFieldsSeen(m.Value(), spec, seen);
    var clear, add := EmitEdges(m);
    spec := spec.(clear := clear, add := add);
  }

  lemma AllFieldsSeen(c: Contents, spec: UpdateSpec, seen: set<Field>)
    requires EmittedFields(c, spec, seen)
    requires HostnameField in seen && ServiceID in seen && StatusField in seen && VerifiedAt in seen
    requires TLSMode in seen && CertificateStatus in seen && UpdatedAtField in seen
    ensures spec.fields == c.fields && spec.clearedFields == c.cleared
  {
    forall f: Field ensures f in seen {
      match f
      case HostnameField | ServiceID | StatusField | VerifiedAt =>
      case TLSMode | CertificateStatus | UpdatedAtField =>
    }
    assert spec.fields.Keys == c.fields.Keys;
  }

  method EmitEdges(m: DomainMutation) returns (clear: seq<EdgeOp>, add: seq<EdgeOp>)
    ensures ClearsOf(m.Value(), clear) && AddsOf(m.Value(), add)
  {
    clear, add := [], [];
    if m.tenantCleared {
      clear := clear + [EdgeOp(TenantEdge, [])];
    }
    if m.tenant.Some? {
      add := add + [EdgeOp(TenantEdge, [m.tenant.value])];
    }
    if m.clearedCertificates {
      clear := clear + [EdgeOp(CertificatesEdge, [])];
    }
    var removed := Listed(m.removedCertificates);
    if |removed| > 0 && !m.clearedCertificates {
      clear := clear + [EdgeOp(CertificatesEdge, removed)];
    }
    var added := Listed(m.certificates);
    if |added| > 0 {
      add := add + [EdgeOp(CertificatesEdge, added)];
    }
  }

  // ---------------------------------------------------------------------
  // Running the operations
  // ---------------------------------------------------------------------

  /** A domain with its edges, as stored. */
  datatype Stored = Stored(fields: Field -> Cell, tenant: Option<Uuid>, certificates: set<Uuid>)

  function RunClear(op: EdgeOp, g: Stored): Stored {
    match op.edge
    case TenantEdge => g.(tenant := None)
    case CertificatesEdge =>
      g.(certificates := if op.ids == [] then {} else g.certificates - Elements(op.ids))
  }

  function RunAdd(op: EdgeOp, g: Stored): Stored {
    match op.edge
    case TenantEdge => if op.ids == [] then g else g.(tenant := Some(op.ids[0]))
    case CertificatesEdge => g.(certificates := g.certificates + Elements(op.ids))
  }

  function RunClears(ops: seq<EdgeOp>, g: Stored): Stored {
    if ops == [] then g else RunClear(ops[|ops| - 1], RunClears(ops[..|ops| - 1], g))
  }

  function RunAdds(ops: seq<EdgeOp>, g: Stored): Stored {
    if ops == [] then g else RunAdd(ops[|ops| - 1], RunAdds(ops[..|ops| - 1], g))
  }

  function RunFields(spec: UpdateSpec, fields: Field -> Cell): Field -> Cell {
    f => if f in spec.fields then spec.fields[f] else if f in spec.clearedFields then SqlNull else fields(f)
  }

  /** The database: first all the clears, then all the additions. */
  function Replay(spec: UpdateSpec, g: Stored): Stored {
    RunAdds(spec.add, RunClears(spec.clear, g.(fields := RunFields(spec, g.fields))))
  }

  /** The certificates a mutation leaves. */
  function Left(c: Contents, certificates: set<Uuid>): set<Uuid> {
    (if c.allCleared then {} else certificates - c.removed) + c.added
  }

  /** What a mutation means for a stored domain, field by field and edge by edge. */
  ghost predicate Means(c: Contents, before: Stored, after: Stored) {
    && (forall f ::
          after.fields(f) ==
          if f in c.fields then c.fields[f] else if f in c.cleared then SqlNull else before.fields(f))
    && after.tenant == (if c.tenant.Some? then c.tenant else if c.tenantCleared then None else before.tenant)
    && after.certificates == Left(c, before.certificates)
  }

  lemma ClearsMean(c: Contents, ops: seq<EdgeOp>, g: Stored)
    requires ClearsOf(c, ops)
    ensures RunClears(ops, g) ==
            g.(tenant := if c.tenantCleared then None else g.tenant,
               certificates := if c.allCleared then {} else g.certificates - c.removed)
  {
    var tenant := if c.tenantCleared then [EdgeOp(TenantEdge, [])] else [];
    assert RunClears(tenant, g) == g.(tenant := if c.tenantCleared then None else g.tenant) by {
      assert tenant != [] ==> tenant[..0] == [];
    }
    if c.allCleared || c.removed != {} {
      assert ops[..|ops| - 1] == tenant;
      if !c.allCleared {
        assert ops[|ops| - 1].ids != [];
      }
    }
  }

  lemma AddsMean(c: Contents, ops: seq<EdgeOp>, g: Stored)
    requires AddsOf(c, ops)
    ensures RunAdds(ops, g) ==
            g.(tenant := if c.tenant.Some? then c.tenant else g.tenant, certificates := g.certificates + c.added)
  {
    var tenant := if c.tenant.Some? then [EdgeOp(TenantEdge, [c.tenant.value])] else [];
    assert RunAdds(tenant, g) == g.(tenant := if c.tenant.Some? then c.tenant else g.tenant) by {
      assert tenant != [] ==> tenant[..0] == [];
    }
    if c.added != {} {
      assert ops[..|ops| - 1] == tenant;
    }
  }

  /**
    Running the compiled operations does what the mutation says, for every
    combination of clearing, removing and adding.
   */
  lemma UpdateMeansMutation(c: Contents, spec: UpdateSpec, g: Stored)
    requires SpecOfUpdate(c, spec)
    ensures Means(c, g, Replay(spec, g))
  {
    var fielded := g.(fields := RunFields(spec, g.fields));
    ClearsMean(c, spec.clear, fielded);
    AddsMean(c, spec.add, RunClears(spec.clear, fielded));
  }

  // ---------------------------------------------------------------------
  // The builders
  // ---------------------------------------------------------------------

  const COLUMNS: seq<string> :=
    ["id", "tenant_id", "hostname", "service_id", "status", "verified_at", "tls_mode", "certificate_status",
     "created_at", "updated_at"]

  datatype Result = Updated(n: nat) | Failed(error: UpdateError)

  /** The database connection: how it answers an update, and what it has been sent. */
  class Database {
    const many: UpdateSpec -> Result
    const one: (Uuid, UpdateSpec) -> Result
    ghost var sent: seq<UpdateSpec>

    constructor (many: UpdateSpec -> Result, one: (Uuid, UpdateSpec) -> Result)
      ensures this.many == many && this.one == one && sent == []
    {
      this.many, this.one := many, one;
      sent := [];
    }

    method UpdateNodes(spec: UpdateSpec) returns (r: Result)
      modifies `sent
      ensures sent == old(sent) + [spec] && r == many(spec)
    {
      sent := sent + [spec];
      r := many(spec);
    }

    method UpdateNode(id: Uuid, spec: UpdateSpec) returns (r: Result)
      modifies `sent
      ensures sent == old(sent) + [spec] && r == one(id, spec)
    {
      sent := sent + [spec];
      r := one(id, spec);
    }
  }

  /** `DomainUpdate.sqlSave`. A mutation that the check rejects is never sent. */
  method SaveMany(m: DomainMutation, db: Database) returns (r: Result)
    modifies m`done, db`sent
    ensures m.Value() == old(m.Value())
    ensures Check(m.Value()).Some? ==> r == Failed(Check(m.Value()).value) && db.sent == old(db.sent)
    ensures Check(m.Value()).None? ==>
              && |db.sent| == |old(db.sent)| + 1 && db.sent[..|old(db.sent)|] == old(db.sent)
              && SpecOfUpdate(m.Value(), db.sent[|old(db.sent)|]) && r == db.many(db.sent[|old(db.sent)|])
    ensures m.done == (old(m.done) || r.Updated?)
    ensures m.Value().HasEmptyHostname() ==> r == Failed(EmptyHostname) && db.sent == old(db.sent)
    ensures !m.Value().HasEmptyHostname() && m.Value().tenantCleared && m.Value().tenant.Some? ==>
              r == Failed(ClearingRequiredEdge) && db.sent == old(db.sent)
  {
    var invalid := Check(m.Value());
    if invalid.Some? {
      return Failed(invalid.value);
    }
    var request := Emit(m);
    r := db.UpdateNodes(request);
    if r.Updated? {
      m.done := true;
    }
  }

  /** The first selected column that the entity does not have. */
  function FirstInvalid(fields: seq<string>): Option<string> {
    if fields == [] then None
    else if fields[0] !in COLUMNS then Some(fields[0])
    else FirstInvalid(fields[1..])
  }

  /** `DomainUpdateOne.sqlSave`; `columns` is what the updated entity is read back with. */
  method SaveOne(m: DomainMutation, fields: seq<string>, db: Database) returns (r: Result, columns: seq<string>)
    modifies m`done, db`sent
    ensures m.Value() == old(m.Value())
    ensures Check(m.Value()).Some? ==> r == Failed(Check(m.Value()).value) && db.sent == old(db.sent)
    ensures Check(m.Value()).None? && m.id.None? ==> r == Failed(MissingID) && db.sent == old(db.sent)
    ensures Check(m.Value()).None? && m.id.Some? && FirstInvalid(fields).Some? ==>
              r == Failed(InvalidColumn(FirstInvalid(fields).value)) && db.sent == old(db.sent)
    ensures Check(m.Value()).None? && m.id.Some? && FirstInvalid(fields).None? ==>
              && |db.sent| == |old(db.sent)| + 1 && db.sent[..|old(db.sent)|] == old(db.sent)
              && SpecOfUpdate(m.Value(), db.sent[|old(db.sent)|])
              && r == db.one(m.id.value, db.sent[|old(db.sent)|])
              && columns == SelectedColumns(fields)
    ensures m.done == (old(m.done) || r.Updated?)
    ensures m.Value().HasEmptyHostname() ==> r == Failed(EmptyHostname) && db.sent == old(db.sent)
    ensures !m.Value().HasEmptyHostname() && m.Value().tenantCleared && m.Value().tenant.Some? ==>
              r == Failed(ClearingRequiredEdge) && db.sent == old(db.sent)
  {
    columns := [];
    var invalid := Check(m.Value());
    if invalid.Some? {
      return Failed(invalid.value), columns;
    }
    if m.id.None? {
      return Failed(MissingID), columns;
    }
    if |fields| > 0 {
      columns := ["id"];
      for i := 0 to |fields|
        invariant m.done == old(m.done) && db.sent == old(db.sent)
        invariant FirstInvalid(fields[..i]).None? && columns == ["id"] + NotId(fields[..i])
      {
        assert fields[..i + 1] == fields[..i] + [fields[i]];
        SelectOneMore(fields[..i], fields[i]);
        if fields[i] !in COLUMNS {
          InvalidStays(fields, i);
          return Failed(InvalidColumn(fields[i])), columns;
        }
        if fields[i] != "id" {
          columns := columns + [fields[i]];
        }
      }
      assert fields[..|fields|] == fields;
    }
    var request := Emit(m);
    r := db.UpdateNode(m.id.value, request);
    if r.Updated? {
      m.done := true;
    }
  }

  function NotId(fields: seq<string>): seq<string> {
    if fields == [] then [] else (if fields[0] != "id" then [fields[0]] else []) + NotId(fields[1..])
  }

  /** No selection reads every column; otherwise the id comes first, once, then what was selected. */
  function SelectedColumns(fields: seq<string>): seq<string> {
    if fields == [] then [] else ["id"] + NotId(fields)
  }

  lemma {:induction false} SelectOneMore(fields: seq<string>, f: string)
    ensures NotId(fields + [f]) == NotId(fields) + if f != "id" then [f] else []
    ensures FirstInvalid(fields + [f]) ==
            if FirstInvalid(fields).Some? then FirstInvalid(fields) else if f !in COLUMNS then Some(f) else None
  {
    hide COLUMNS;
    if fields == [] {
      assert [] + [f] == [f] && [f][1..] == [];
    } else {
      SelectOneMore(fields[1..], f);
      assert (fields + [f])[1..] == fields[1..] + [f];
    }
  }

  lemma {:induction false} InvalidStays(fields: seq<string>, i: nat)
    requires i < |fields| && FirstInvalid(fields[..i]).None? && fields[i] !in COLUMNS
    ensures FirstInvalid(fields) == Some(fields[i])
    decreases i
  {
    hide COLUMNS;
    if i > 0 {
      assert fields[..i][0] == fields[0] && fields[..i][1..] == fields[1..][..i - 1];
      InvalidStays(fields[1..], i - 1);
    }
  }

  /** Whichever builder compiles a mutation, the operations mean the same for the stored domain. */
  lemma ManyAndOneAgree(c: Contents, many: UpdateSpec, one: UpdateSpec, g: Stored)
    requires SpecOfUpdate(c, many) && SpecOfUpdate(c, one)
    ensures Replay(many, g).tenant == Replay(one, g).tenant
    ensures Replay(many, g).certificates == Replay(one, g).certificates
    ensures forall f :: Replay(many, g).fields(f) == Replay(one, g).fields(f)
  {
    UpdateMeansMutation(c, many, g);
    UpdateMeansMutation(c, one, g);
  }

  // ---------------------------------------------------------------------
  // What the calls ask for, one after the other
  // ---------------------------------------------------------------------

  /** A call carried out at once. */
  function Obey(call: Call, certificates: set<Uuid>): set<Uuid> {
    match call
    case AddCertificates(ids) => certificates + Elements(ids)
    case RemoveCertificates(ids) => certificates - Elements(ids)
    case ClearCertificates => {}
    case _ => certificates
  }

  function ObeyAll(calls: seq<Call>, certificates: set<Uuid>): set<Uuid> {
    if calls == [] then certificates else Obey(calls[|calls| - 1], ObeyAll(calls[..|calls| - 1], certificates))
  }

  /** Whether the last call that names `x` adds it. */
  function LastAdds(calls: seq<Call>, x: Uuid): Option<bool> {
    if calls == [] then None
    else
      match calls[|calls| - 1]
      case AddCertificates(ids) => if x in ids then Some(true) else LastAdds(calls[..|calls| - 1], x)
      case RemoveCertificates(ids) => if x in ids then Some(false) else LastAdds(calls[..|calls| - 1], x)
      case _ => LastAdds(calls[..|calls| - 1], x)
  }

  /** The last call that names `x` adds it, and the edge is cleared after that call. */
  predicate AddedThenCleared(calls: seq<Call>, x: Uuid) {
    calls != [] &&
    match calls[|calls| - 1]
    case AddCertificates(ids) => x !in ids && AddedThenCleared(calls[..|calls| - 1], x)
    case RemoveCertificates(ids) => x !in ids && AddedThenCleared(calls[..|calls| - 1], x)
    case ClearCertificates => LastAdds(calls[..|calls| - 1], x) == Some(true)
    case _ => AddedThenCleared(calls[..|calls| - 1], x)
  }

  /** Per certificate: an addition is kept, and a removal remembered, whatever is cleared in between. */
  lemma {:induction false} CollectedSets(calls: seq<Call>, x: Uuid)
    ensures x in Collected(calls).added <==> LastAdds(calls, x) == Some(true)
    ensures LastAdds(calls, x) == Some(false) ==> x in Collected(calls).removed
    ensures x in Collected(calls).removed ==> LastAdds(calls, x).Some?
  {
    if calls != [] {
      CollectedSets(calls[..|calls| - 1], x);
    }
  }

  lemma {:induction false} LeftIsObeyed(calls: seq<Call>, certificates: set<Uuid>, x: Uuid)
    ensures (x in Left(Collected(calls), certificates) <==> x in ObeyAll(calls, certificates)) <==>
            !AddedThenCleared(calls, x)
    ensures AddedThenCleared(calls, x) ==> LastAdds(calls, x) == Some(true)
  {
    if calls != [] {
      LeftIsObeyed(calls[..|calls| - 1], certificates, x);
      CollectedSets(calls[..|calls| - 1], x);
    }
  }

  /**
    A chain of calls leaves the certificates that carrying the calls out one by one
    would leave, for exactly the chains that never clear the edge after an addition
    that still stands: clearing does not take back additions made before it.
   */
  lemma CallsAreObeyedIff(calls: seq<Call>, certificates: set<Uuid>)
    ensures Left(Collected(calls), certificates) == ObeyAll(calls, certificates) <==>
            forall x :: !AddedThenCleared(calls, x)
  {
    forall x
      ensures (x in Left(Collected(calls), certificates) <==> x in ObeyAll(calls, certificates)) <==>
              !AddedThenCleared(calls, x)
    {
      LeftIsObeyed(calls, certificates, x);
    }
    var left, obeyed := Left(Collected(calls), certificates), ObeyAll(calls, certificates);
    if forall x :: !AddedThenCleared(calls, x) {
      assert forall x :: x in left <==> x in obeyed;
      assert left == obeyed;
    } else {
      var x :| AddedThenCleared(calls, x);
      LeftIsObeyed(calls, certificates, x);
      assert x in left <==> x !in obeyed;
      assert left != obeyed;
    }
  }

  /** The value of a field if the calls were carried out one by one. */
  function ObeyFields(calls: seq<Call>, f: Field, cell: Cell): Cell {
    if calls == [] then cell
    else
      var before := ObeyFields(calls[..|calls| - 1], f, cell);
      match calls[|calls| - 1]
      case Set(g, v) => if g == f then v else before
      case Clear(g) => if g == f then SqlNull else before
      case _ => before
  }

  /** For plain fields the last call always wins: clearing drops the value, and setting runs after clearing. */
  lemma {:induction false} FieldsAreObeyed(calls: seq<Call>, f: Field, cell: Cell)
    ensures var c := Collected(calls);
            ObeyFields(calls, f, cell) ==
            if f in c.fields then c.fields[f] else if f in c.cleared then SqlNull else cell
  {
    if calls != [] {
      FieldsAreObeyed(calls[..|calls| - 1], f, cell);
    }
  }

  /** The tenant if the calls were carried out one by one. */
  function ObeyTenant(calls: seq<Call>, tenant: Option<Uuid>): Option<Uuid> {
    if calls == [] then tenant
    else
      match calls[|calls| - 1]
      case SetTenant(id) => Some(id)
      case ClearTenant => None
      case _ => ObeyTenant(calls[..|calls| - 1], tenant)
  }

  /** Of a tenant that was only set the last id counts; one that was only cleared is gone. */
  lemma {:induction false} TenantIsObeyed(calls: seq<Call>, tenant: Option<Uuid>)
    ensures var c := Collected(calls);
            && (!c.tenantCleared ==> ObeyTenant(calls, tenant) == if c.tenant.Some? then c.tenant else tenant)
            && (c.tenantCleared && c.tenant.None? ==> ObeyTenant(calls, tenant) == None)
  {
    if calls != [] {
      TenantIsObeyed(calls[..|calls| - 1], tenant);
    }
  }

  /** The whole way, from the calls to the stored domain. */
  lemma UpdateObeysCalls(calls: seq<Call>, spec: UpdateSpec, g: Stored)
    requires SpecOfUpdate(Collected(calls), spec)
    ensures forall f :: Replay(spec, g).fields(f) == ObeyFields(calls, f, g.fields(f))
    ensures Replay(spec, g).certificates == ObeyAll(calls, g.certificates) <==>
            forall x :: !AddedThenCleared(calls, x)
    ensures Check(Collected(calls)).None? ==> Replay(spec, g).tenant == ObeyTenant(calls, g.tenant)
  {
    TenantIsObeyed(calls, g.tenant);
    UpdateMeansMutation(Collected(calls), spec, g);
    CallsAreObeyedIff(calls, g.certificates);
    forall f
      ensures Replay(spec, g).fields(f) == ObeyFields(calls, f, g.fields(f))
    {
      FieldsAreObeyed(calls, f, g.fields(f));
    }
  }

  /** What the last call that sets or clears the field sets it to. */
  function LastSet(calls: seq<Call>, f: Field): Option<Cell> {
    if calls == [] then None
    else
      match calls[|calls| - 1]
      case Set(g, v) => if g == f then Some(v) else LastSet(calls[..|calls| - 1], f)
      case Clear(g) => if g == f then None else LastSet(calls[..|calls| - 1], f)
      case _ => LastSet(calls[..|calls| - 1], f)
  }

  lemma {:induction false} CollectedField(calls: seq<Call>, f: Field)
    ensures var c := Collected(calls);
            LastSet(calls, f) == if f in c.fields then Some(c.fields[f]) else None
  {
    if calls != [] {
      CollectedField(calls[..|calls| - 1], f);
    }
  }

  /**
    What the check finds wrong with a chain of calls: first a hostname that was last set
    to the empty text, then a required edge that was both cleared and set, in either
    order; clearing it alone passes.
   */
  lemma CallsAreChecked(calls: seq<Call>)
    ensures Check(Collected(calls)) ==
            if LastSet(calls, HostnameField) == Some(Text("")) then Some(EmptyHostname)
            else if ClearTenant in calls && (exists i :: 0 <= i < |calls| && calls[i].SetTenant?) then
              Some(ClearingRequiredEdge)
            else None
  {
    CollectedTenant(calls);
    CollectedField(calls, HostnameField);
  }

  lemma {:induction false} CollectedTenant(calls: seq<Call>)
    ensures Collected(calls).tenantCleared <==> ClearTenant in calls
    ensures Collected(calls).tenant.Some? <==> exists i :: 0 <= i < |calls| && calls[i].SetTenant?
  {
    if calls != [] {
      var before := calls[..|calls| - 1];
      CollectedTenant(before);
      assert calls == before + [calls[|calls| - 1]];
    }
  }

  // ---------------------------------------------------------------------
  // Reading the updated domain back
  // ---------------------------------------------------------------------

  lemma {:induction false} NotIdKeeps(fields: seq<string>, f: string)
    ensures multiset(NotId(fields))[f] == if f == "id" then 0 else multiset(fields)[f]
  {
    if fields != [] {
      NotIdKeeps(fields[1..], f);
      assert fields == [fields[0]] + fields[1..];
    }
  }

  /** A selection reads the id first and once, and every other selected column as often as it was selected. */
  lemma SelectedColumnsAreExact(fields: seq<string>)
    requires fields != []
    ensures var columns := SelectedColumns(fields);
            && columns[0] == "id" && multiset(columns)["id"] == 1
            && forall f | f != "id" :: multiset(columns)[f] == multiset(fields)[f]
  {
    forall f
      ensures multiset(NotId(fields))[f] == if f == "id" then 0 else multiset(fields)[f]
    {
      NotIdKeeps(fields, f);
    }
  }

  /** The invalid column reported is the first selected one that the entity does not have. */
  lemma {:induction false} FirstInvalidIsExact(fields: seq<string>)
    ensures (forall f | f in fields :: f in COLUMNS) <==> FirstInvalid(fields).None?
    ensures FirstInvalid(fields).Some? ==>
              exists k :: && 0 <= k < |fields| && fields[k] == FirstInvalid(fields).value && fields[k] !in COLUMNS
                          && forall j | 0 <= j < k :: fields[j] in COLUMNS
  {
    hide COLUMNS;
    if fields != [] {
      var rest := fields[1..];
      FirstInvalidIsExact(rest);
      assert fields == [fields[0]] + rest;
      if fields[0] in COLUMNS && FirstInvalid(rest).Some? {
        var k :| && 0 <= k < |rest| && rest[k] == FirstInvalid(rest).value && rest[k] !in COLUMNS
                 && forall j | 0 <= j < k :: rest[j] in COLUMNS;
        assert fields[k + 1] == rest[k];
        assert forall j | 0 < j < k + 1 :: fields[j] == rest[j - 1];
      }
    }
  }
}
