/**
  The row codec of one entity: what `createSpec` writes, what the driver puts
  into the holders of `scanValues`, and what `assignValues` reads back out.
 */
module Certificates {
  import opened Sql

  datatype Column =
    | ID
    | DomainID
    | Hostname
    | Source
    | Status
    | CertificatePem
    | PrivateKeyEncrypted
    | Issuer
    | SerialNumber
    | IssuedAt
    | ExpiresAt
    | LastRenewedAt
    | LastError
    | ProviderMeta
    | RenewAttempts
    | NextRenewAt
    | LastRenewError
    | CreatedAt
    | UpdatedAt
    | Unknown(name: string)

  /** A JSON document in the `provider_meta` column. */
  datatype Doc = JsonNull | Object(entries: map<string, string>) | Malformed

  /** A cell as the database returns it. */
  datatype Cell =
    | SqlNull
    | Uid(uuid: Uuid)
    | Text(text: string)
    | Time(time: int)
    | Number(number: int)
    | Json(doc: Doc)

  datatype CodecError = CountMismatch | UnexpectedType(column: Column) | BadJson | ScanMismatch

  // ---------------------------------------------------------------------
  // Holders
  // ---------------------------------------------------------------------

  /** The scan destinations; the wrapped option is empty while the cell is NULL. */
  datatype Holder =
    | UuidHolder(uuid: Uuid)
    | NullUuid(key: Option<Uuid>)
    | Bytes(doc: Option<Doc>)
    | NullInt64(number: Option<int>)
    | NullString(text: Option<string>)
    | NullTime(time: Option<int>)
    | UnknownType(cell: Cell)

  function EmptyHolder(c: Column): Holder {
    match c
    case DomainID => NullUuid(None)
    case ProviderMeta => Bytes(None)
    case RenewAttempts => NullInt64(None)
    case Hostname | Source | Status | CertificatePem | PrivateKeyEncrypted | Issuer | SerialNumber | LastError
      | LastRenewError => NullString(None)
    case IssuedAt | ExpiresAt | LastRenewedAt | NextRenewAt | CreatedAt | UpdatedAt => NullTime(None)
    case ID => UuidHolder(NIL_UUID)
    case Unknown(_) => UnknownType(SqlNull)
  }

  method ScanValues(columns: seq<Column>) returns (values: array<Holder>)
    ensures fresh(values) && values.Length == |columns|
    ensures forall i :: 0 <= i < |columns| ==> values[i] == EmptyHolder(columns[i])
  {
    values := new Holder[|columns|](_ => UnknownType(SqlNull));
    for i := 0 to |columns|
      invariant forall l :: 0 <= l < i ==> values[l] == EmptyHolder(columns[l])
    {
      values[i] := EmptyHolder(columns[i]);
    }
  }

  /** The driver scanning one cell; NULL leaves a plain uuid as it was. */
  function Scan(h: Holder, cell: Cell): Option<Holder> {
    match (h, cell)
    case (UnknownType(_), _) => Some(UnknownType(cell))
    case (UuidHolder(_), Uid(u)) => Some(UuidHolder(u))
    case (NullUuid(_), Uid(u)) => Some(NullUuid(Some(u)))
    case (Bytes(_), Json(d)) => Some(Bytes(Some(d)))
    case (NullInt64(_), Number(n)) => Some(NullInt64(Some(n)))
    case (NullString(_), Text(s)) => Some(NullString(Some(s)))
    case (NullTime(_), Time(t)) => Some(NullTime(Some(t)))
    case (UuidHolder(u), SqlNull) => Some(h)
    case (NullUuid(_), SqlNull) => Some(NullUuid(None))
    case (Bytes(_), SqlNull) => Some(Bytes(None))
    case (NullInt64(_), SqlNull) => Some(NullInt64(None))
    case (NullString(_), SqlNull) => Some(NullString(None))
    case (NullTime(_), SqlNull) => Some(NullTime(None))
    case (_, _) => None
  }

  // ---------------------------------------------------------------------
  // The entity
  // ---------------------------------------------------------------------

  const ZERO_TIME: int := 0

  datatype Record = Record(
    id: Uuid,
    domainID: Option<Uuid>,
    hostname: string,
    source: string,
    status: string,
    certificatePem: string,
    privateKeyEncrypted: string,
    issuer: string,
    serialNumber: string,
    issuedAt: Option<int>,
    expiresAt: Option<int>,
    lastRenewedAt: Option<int>,
    lastError: string,
    providerMeta: Option<map<string, string>>,
    renewAttempts: int,
    nextRenewAt: Option<int>,
    lastRenewError: string,
    createdAt: int,
    updatedAt: int,
    selectValues: map<string, Cell>
  )

  const ZERO: Record :=
    Record(NIL_UUID, None, "", "", "", "", "", "", "", None, None, None, "", None, 0, None, "", ZERO_TIME, ZERO_TIME,
           map[])

  /** `json.Unmarshal` into a map: null makes it nil, an object is written over the entries already there. */
  function Unmarshal(before: Option<map<string, string>>, doc: Doc): Option<map<string, string>> {
    match doc
    case Object(entries) => Some(if before.Some? then before.value + entries else entries)
    case JsonNull => None
    case Malformed => before
  }

  /** What one column does to the entity, or the error it stops at. */
  datatype Step = Step(record: Record, err: Option<CodecError>)

  function AssignOne(r: Record, c: Column, h: Holder): Step {
    match (c, h)
    case (ID, UuidHolder(u)) => Step(r.(id := u), None)
    case (DomainID, NullUuid(v)) => Step(if v.Some? then r.(domainID := v) else r, None)
    case (Hostname, NullString(v)) => Step(if v.Some? then r.(hostname := v.value) else r, None)
    case (Source, NullString(v)) => Step(if v.Some? then r.(source := v.value) else r, None)
    case (Status, NullString(v)) => Step(if v.Some? then r.(status := v.value) else r, None)
    case (CertificatePem, NullString(v)) => Step(if v.Some? then r.(certificatePem := v.value) else r, None)
    case (PrivateKeyEncrypted, NullString(v)) => Step(if v.Some? then r.(privateKeyEncrypted := v.value) else r, None)
    case (Issuer, NullString(v)) => Step(if v.Some? then r.(issuer := v.value) else r, None)
    case (SerialNumber, NullString(v)) => Step(if v.Some? then r.(serialNumber := v.value) else r, None)
    case (IssuedAt, NullTime(v)) => Step(if v.Some? then r.(issuedAt := v) else r, None)
    case (ExpiresAt, NullTime(v)) => Step(if v.Some? then r.(expiresAt := v) else r, None)
    case (LastRenewedAt, NullTime(v)) => Step(if v.Some? then r.(lastRenewedAt := v) else r, None)
    case (LastError, NullString(v)) => Step(if v.Some? then r.(lastError := v.value) else r, None)
    case (ProviderMeta, Bytes(v)) =>
      if v.None? then Step(r, None)
      else if v.value.Malformed? then Step(r, Some(BadJson))
      else Step(r.(providerMeta := Unmarshal(r.providerMeta, v.value)), None)
    case (RenewAttempts, NullInt64(v)) => Step(if v.Some? then r.(renewAttempts := v.value) else r, None)
    case (NextRenewAt, NullTime(v)) => Step(if v.Some? then r.(nextRenewAt := v) else r, None)
    case (LastRenewError, NullString(v)) => Step(if v.Some? then r.(lastRenewError := v.value) else r, None)
    case (CreatedAt, NullTime(v)) => Step(if v.Some? then r.(createdAt := v.value) else r, None)
    case (UpdatedAt, NullTime(v)) => Step(if v.Some? then r.(updatedAt := v.value) else r, None)
    case (Unknown(name), UnknownType(cell)) => Step(r.(selectValues := r.selectValues[name := cell]), None)
    case (_, _) => Step(r, Some(UnexpectedType(c)))
  }

  /** The first `n` columns, in order, up to the first error. */
  function AssignFirst(r: Record, columns: seq<Column>, values: seq<Holder>, n: nat): Step
    requires n <= |columns| <= |values|
  {
    if n == 0 then Step(r, None)
    else
      var before := AssignFirst(r, columns, values, n - 1);
      if before.err.Some? then before else AssignOne(before.record, columns[n - 1], values[n - 1])
  }

  class Certificate {
    var record: Record

    constructor ()
      ensures record == ZERO
    {
      record := ZERO;
    }

    /** Values left over after the last column are ignored; too few are an error. */
    method AssignValues(columns: seq<Column>, values: seq<Holder>) returns (err: Option<CodecError>)
      modifies this
      ensures |values| < |columns| ==> err == Some(CountMismatch) && record == old(record)
      ensures |columns| <= |values| ==> Step(record, err) == AssignFirst(old(record), columns, values, |columns|)
    {
      if |values| < |columns| {
        return Some(CountMismatch);
      }
      for i := 0 to |columns|
        invariant Step(record, None) == AssignFirst(old(record), columns, values, i)
      {
        StopsAtError(old(record), columns, values, i + 1);
        var step := AssignOne(record, columns[i], values[i]);
        record := step.record;
        if step.err.Some? {
          return step.err;
        }
      }
      err := None;
    }
  }

  lemma {:induction false} StopsAtError(r: Record, columns: seq<Column>, values: seq<Holder>, n: nat)
    requires n <= |columns| <= |values|
    ensures AssignFirst(r, columns, values, n).err.Some? ==>
              AssignFirst(r, columns, values, |columns|) == AssignFirst(r, columns, values, n)
    decreases |columns| - n
  {
    if n < |columns| {
      StopsAtError(r, columns, values, n + 1);
    }
  }

  // ---------------------------------------------------------------------
  // Reading fields back
  // ---------------------------------------------------------------------

  function OptTime(t: Option<int>): Cell {
    if t.Some? then Time(t.value) else SqlNull
  }

  /** A field of the entity as the cell it would be stored in; nil pointers and nil maps are NULL. */
  function Get(r: Record, c: Column): Cell {
    match c
    case ID => Uid(r.id)
    case DomainID => if r.domainID.Some? then Uid(r.domainID.value) else SqlNull
    case Hostname => Text(r.hostname)
    case Source => Text(r.source)
    case Status => Text(r.status)
    case CertificatePem => Text(r.certificatePem)
    case PrivateKeyEncrypted => Text(r.privateKeyEncrypted)
    case Issuer => Text(r.issuer)
    case SerialNumber => Text(r.serialNumber)
    case IssuedAt => OptTime(r.issuedAt)
    case ExpiresAt => OptTime(r.expiresAt)
    case LastRenewedAt => OptTime(r.lastRenewedAt)
    case LastError => Text(r.lastError)
    case ProviderMeta => if r.providerMeta.Some? then Json(Object(r.providerMeta.value)) else SqlNull
    case RenewAttempts => Number(r.renewAttempts)
    case NextRenewAt => OptTime(r.nextRenewAt)
    case LastRenewError => Text(r.lastRenewError)
    case CreatedAt => Time(r.createdAt)
    case UpdatedAt => Time(r.updatedAt)
    case Unknown(name) => if name in r.selectValues then r.selectValues[name] else SqlNull
  }

  /** The cell has the type of the column. */
  predicate Fits(c: Column, cell: Cell) {
    Scan(EmptyHolder(c), cell).Some?
  }

  predicate RowFits(columns: seq<Column>, cells: seq<Cell>) {
    |cells| == |columns| && forall i | 0 <= i < |columns| :: Fits(columns[i], cells[i])
  }

  /** The holders of `scanValues` once the driver has scanned a row into them. */
  function Scanned(columns: seq<Column>, cells: seq<Cell>): (values: seq<Holder>)
    requires RowFits(columns, cells)
    ensures |values| == |columns|
    ensures forall i :: 0 <= i < |columns| ==> values[i] == Scan(EmptyHolder(columns[i]), cells[i]).value
  {
    seq(|columns|, i requires 0 <= i < |columns| => Scan(EmptyHolder(columns[i]), cells[i]).value)
  }

  /** What scanning and assigning one cell makes of a field. */
  function Effect(c: Column, before: Cell, cell: Cell): Cell {
    match c
    case Unknown(_) => cell
    case ID => if cell.SqlNull? then Uid(NIL_UUID) else cell
    case ProviderMeta =>
      if cell.Json? && cell.doc.JsonNull? then SqlNull
      else if cell.Json? && cell.doc.Object? then
        var entries := cell.doc.entries;
        Json(Object(if before.Json? && before.doc.Object? then before.doc.entries + entries else entries))
      else before
    case _ => if cell.SqlNull? then before else cell
  }

  datatype Kind = TextKind | TimeKind | OtherKind

  function KindOf(c: Column): Kind {
    match c
    case Hostname | Source | Status | CertificatePem | PrivateKeyEncrypted | Issuer | SerialNumber | LastError
      | LastRenewError => TextKind
    case IssuedAt | ExpiresAt | LastRenewedAt | NextRenewAt | CreatedAt | UpdatedAt => TimeKind
    case _ => OtherKind
  }

  lemma AssignTextLaw(r: Record, c: Column, cell: Cell, k: Column)
    requires Fits(c, cell) && KindOf(c) == TextKind
    ensures var step := AssignOne(r, c, Scan(EmptyHolder(c), cell).value);
            step.err == None && Get(step.record, k) == if k == c then Effect(c, Get(r, c), cell) else Get(r, k)
  {
  }

  lemma AssignTimeLaw(r: Record, c: Column, cell: Cell, k: Column)
    requires Fits(c, cell) && KindOf(c) == TimeKind
    ensures var step := AssignOne(r, c, Scan(EmptyHolder(c), cell).value);
            step.err == None && Get(step.record, k) == if k == c then Effect(c, Get(r, c), cell) else Get(r, k)
  {
  }

  lemma AssignOneLaw(r: Record, c: Column, cell: Cell, k: Column)
    requires Fits(c, cell)
    ensures var step := AssignOne(r, c, Scan(EmptyHolder(c), cell).value);
            && step.err == (if c == ProviderMeta && cell == Json(Malformed) then Some(BadJson) else None)
            && Get(step.record, k) == if k == c then Effect(c, Get(r, c), cell) else Get(r, k)
  {
    match KindOf(c)
    case TextKind => AssignTextLaw(r, c, cell, k);
    case TimeKind => AssignTimeLaw(r, c, cell, k);
    case OtherKind =>
  }

  /** All occurrences of column `k` among the first `n`, applied in order. */
  function FieldFold(columns: seq<Column>, cells: seq<Cell>, k: Column, init: Cell, n: nat): Cell
    requires n <= |columns| == |cells|
  {
    if n == 0 then init
    else
      var before := FieldFold(columns, cells, k, init, n - 1);
      if columns[n - 1] == k then Effect(k, before, cells[n - 1]) else before
  }

  predicate WellFormedJson(columns: seq<Column>, cells: seq<Cell>, n: nat)
    requires n <= |columns| == |cells|
  {
    forall i | 0 <= i < n :: !(columns[i] == ProviderMeta && cells[i] == Json(Malformed))
  }

  /**
    The two switches agree, for any column list with repeated and unknown columns:
    no holder made by `scanValues` has a type that `assignValues` rejects, so the
    only possible error is a JSON document that does not parse.
   */
  lemma {:induction false} SwitchesAgree(r: Record, columns: seq<Column>, cells: seq<Cell>, n: nat)
    requires RowFits(columns, cells) && n <= |columns|
    ensures var err := AssignFirst(r, columns, Scanned(columns, cells), n).err;
            err == if WellFormedJson(columns, cells, n) then None else Some(BadJson)
  {
    hide AssignOne, Get, Effect, EmptyHolder, Scan;
    if n > 0 {
      SwitchesAgree(r, columns, cells, n - 1);
      AssignOneLaw(AssignFirst(r, columns, Scanned(columns, cells), n - 1).record, columns[n - 1], cells[n - 1], ID);
    }
  }

  /** Each field ends as its own occurrences make it, whatever else is in the list. */
  lemma {:induction false} FieldsAreIndependent(r: Record, columns: seq<Column>, cells: seq<Cell>, k: Column, n: nat)
    requires RowFits(columns, cells) && n <= |columns| && WellFormedJson(columns, cells, |columns|)
    ensures AssignFirst(r, columns, Scanned(columns, cells), n).err == None
    ensures Get(AssignFirst(r, columns, Scanned(columns, cells), n).record, k) ==
            FieldFold(columns, cells, k, Get(r, k), n)
  {
    hide AssignOne, Get, Effect, EmptyHolder, Scan;
    if n > 0 {
      FieldsAreIndependent(r, columns, cells, k, n - 1);
      AssignOneLaw(AssignFirst(r, columns, Scanned(columns, cells), n - 1).record, columns[n - 1], cells[n - 1], k);
    }
  }

  function LastNonNull(columns: seq<Column>, cells: seq<Cell>, k: Column, init: Cell, n: nat): Cell
    requires n <= |columns| == |cells|
  {
    if n == 0 then init
    else if columns[n - 1] == k && !cells[n - 1].SqlNull? then cells[n - 1]
    else LastNonNull(columns, cells, k, init, n - 1)
  }

  lemma {:induction false} FoldIsLast(columns: seq<Column>, cells: seq<Cell>, k: Column, init: Cell, n: nat)
    requires n <= |columns| == |cells| && k != ProviderMeta && !k.Unknown?
    requires k == ID ==> forall i | 0 <= i < n :: columns[i] == ID ==> !cells[i].SqlNull?
    ensures FieldFold(columns, cells, k, init, n) == LastNonNull(columns, cells, k, init, n)
  {
    if n > 0 {
      FoldIsLast(columns, cells, k, init, n - 1);
    }
  }

  /** An ordinary field ends as its last non-null occurrence, or keeps its old value. */
  lemma LastNonNullWins(r: Record, columns: seq<Column>, cells: seq<Cell>, k: Column)
    requires RowFits(columns, cells) && WellFormedJson(columns, cells, |columns|)
    requires k != ProviderMeta && !k.Unknown?
    requires k == ID ==> forall i | 0 <= i < |columns| :: columns[i] == ID ==> !cells[i].SqlNull?
    ensures Get(AssignFirst(r, columns, Scanned(columns, cells), |columns|).record, k) ==
            LastNonNull(columns, cells, k, Get(r, k), |columns|)
  {
    FieldsAreIndependent(r, columns, cells, k, |columns|);
    FoldIsLast(columns, cells, k, Get(r, k), |columns|);
  }

  /** A column that the entity does not have keeps its last cell under its name. */
  lemma UnknownColumnIsKept(r: Record, columns: seq<Column>, cells: seq<Cell>, name: string, n: nat)
    requires RowFits(columns, cells) && WellFormedJson(columns, cells, |columns|) && n < |columns|
    requires columns[n] == Unknown(name) && forall i | n < i < |columns| :: columns[i] != Unknown(name)
    ensures var after := AssignFirst(r, columns, Scanned(columns, cells), |columns|).record;
            Get(after, Unknown(name)) == cells[n]
  {
    FieldsAreIndependent(r, columns, cells, Unknown(name), |columns|);
    UnknownFold(columns, cells, name, Get(r, Unknown(name)), n, |columns|);
  }

  lemma {:induction false} UnknownFold(columns: seq<Column>, cells: seq<Cell>, name: string, init: Cell, n: nat, m: nat)
    requires n < m <= |columns| == |cells| && columns[n] == Unknown(name)
    requires forall i | n < i < |columns| :: columns[i] != Unknown(name)
    ensures FieldFold(columns, cells, Unknown(name), init, m) == cells[n]
    decreases m
  {
    if m > n + 1 {
      UnknownFold(columns, cells, name, init, n, m - 1);
    }
  }

  /** A holder of another type than the column's is rejected, and the entity is left as it was. */
  lemma WrongHolderIsRejected(r: Record, c: Column, other: Column, cell: Cell)
    requires Fits(other, cell) && EmptyHolder(other) != EmptyHolder(c)
    ensures AssignOne(r, c, Scan(EmptyHolder(other), cell).value) == Step(r, Some(UnexpectedType(c)))
  {
    match KindOf(c)
    case TextKind =>
    case TimeKind =>
    case OtherKind =>
  }

  /** No JSON null is read into the map at position `i` or later. */
  predicate NoNullFrom(columns: seq<Column>, cells: seq<Cell>, i: nat)
    requires |columns| == |cells|
  {
    forall j | i <= j < |columns| :: !(columns[j] == ProviderMeta && cells[j] == Json(JsonNull))
  }

  predicate IsObject(columns: seq<Column>, cells: seq<Cell>, i: nat)
    requires i < |columns| == |cells|
  {
    columns[i] == ProviderMeta && cells[i].Json? && cells[i].doc.Object?
  }

  function KeysIn(cell: Cell): set<string> {
    if cell.Json? && cell.doc.Object? then cell.doc.entries.Keys else {}
  }

  /** The field as the document alone would make it. */
  function AsField(cell: Cell): Cell {
    if cell == Json(JsonNull) then SqlNull else cell
  }

  /** Every object read since the last JSON null, and the old map if there was none, has its keys among `keys`. */
  ghost predicate MergedWithin(columns: seq<Column>, cells: seq<Cell>, init: Cell, keys: set<string>)
    requires |columns| == |cells|
  {
    && (forall i | 0 <= i < |columns| && IsObject(columns, cells, i) && NoNullFrom(columns, cells, i) ::
          KeysIn(cells[i]) <= keys)
    && (NoNullFrom(columns, cells, 0) ==> KeysIn(init) <= keys)
  }

  predicate IsMeta(cell: Cell) {
    cell.SqlNull? || (cell.Json? && cell.doc.Object?)
  }

  lemma SnocNoNull(columns: seq<Column>, cells: seq<Cell>, c: Column, cell: Cell, i: nat)
    requires |columns| == |cells|
    ensures NoNullFrom(columns + [c], cells + [cell], i) <==>
            NoNullFrom(columns, cells, i) && (i <= |columns| && c == ProviderMeta ==> cell != Json(JsonNull))
  {
    var cs, vs, n := columns + [c], cells + [cell], |columns|;
    assert forall j | 0 <= j < n :: cs[j] == columns[j] && vs[j] == cells[j];
    assert cs[n] == c && vs[n] == cell;
  }

  /** One more cell, as far as merging is concerned. */
  lemma SnocMerged(columns: seq<Column>, cells: seq<Cell>, c: Column, cell: Cell, init: Cell, keys: set<string>)
    requires |columns| == |cells|
    ensures MergedWithin(columns + [c], cells + [cell], init, keys) <==>
            if c == ProviderMeta && cell == Json(JsonNull) then true
            else MergedWithin(columns, cells, init, keys) && (c == ProviderMeta ==> KeysIn(cell) <= keys)
  {
    var cs, vs, n := columns + [c], cells + [cell], |columns|;
    forall i | 0 <= i <= n
      ensures NoNullFrom(cs, vs, i) <==>
              NoNullFrom(columns, cells, i) && (c == ProviderMeta ==> cell != Json(JsonNull))
    {
      SnocNoNull(columns, cells, c, cell, i);
    }
    assert forall i | 0 <= i < n :: IsObject(cs, vs, i) <==> IsObject(columns, cells, i);
    assert forall i | 0 <= i < n :: vs[i] == cells[i];
    assert IsObject(cs, vs, n) <==> c == ProviderMeta && cell.Json? && cell.doc.Object?;
    assert vs[n] == cell && NoNullFrom(columns, cells, n);
  }

  lemma SnocFold(columns: seq<Column>, cells: seq<Cell>, c: Column, cell: Cell, k: Column, init: Cell, n: nat)
    requires |columns| == |cells| && n <= |columns|
    ensures FieldFold(columns + [c], cells + [cell], k, init, n) == FieldFold(columns, cells, k, init, n)
    ensures LastNonNull(columns + [c], cells + [cell], k, init, n) == LastNonNull(columns, cells, k, init, n)
  {
    if n > 0 {
      SnocFold(columns, cells, c, cell, k, init, n - 1);
    }
  }

  /** The keys of the map in the end are those that were merged into it. */
  lemma {:induction false} FoldMerges(columns: seq<Column>, cells: seq<Cell>, init: Cell, keys: set<string>)
    requires RowFits(columns, cells) && WellFormedJson(columns, cells, |columns|) && IsMeta(init)
    ensures var meta := FieldFold(columns, cells, ProviderMeta, init, |columns|);
            IsMeta(meta) && (KeysIn(meta) <= keys <==> MergedWithin(columns, cells, init, keys))
    decreases |columns|
  {
    if columns == [] {
      assert NoNullFrom(columns, cells, 0);
    } else {
      var n := |columns| - 1;
      var cs, vs, c, cell := columns[..n], cells[..n], columns[n], cells[n];
      assert columns == cs + [c] && cells == vs + [cell];
      FoldMerges(cs, vs, init, keys);
      SnocMerged(cs, vs, c, cell, init, keys);
      SnocFold(cs, vs, c, cell, ProviderMeta, init, n);
      assert Fits(columns[n], cells[n]) && !(columns[n] == ProviderMeta && cells[n] == Json(Malformed));
    }
  }

  /** Without its last column the fold still decides what the last document meets. */
  lemma {:induction false} FoldEndsWithLast(columns: seq<Column>, cells: seq<Cell>, init: Cell)
    requires RowFits(columns, cells) && WellFormedJson(columns, cells, |columns|) && IsMeta(init)
    ensures var meta := FieldFold(columns, cells, ProviderMeta, init, |columns|);
            var last := AsField(LastNonNull(columns, cells, ProviderMeta, init, |columns|));
            IsMeta(meta) && IsMeta(last) && (meta == last <==> KeysIn(meta) <= KeysIn(last))
    decreases |columns|
  {
    if columns != [] {
      var n := |columns| - 1;
      var cs, vs, c, cell := columns[..n], cells[..n], columns[n], cells[n];
      assert columns == cs + [c] && cells == vs + [cell];
      FoldEndsWithLast(cs, vs, init);
      SnocFold(cs, vs, c, cell, ProviderMeta, init, n);
      assert Fits(columns[n], cells[n]) && !(columns[n] == ProviderMeta && cells[n] == Json(Malformed));
      if IsObject(columns, cells, n) {
        MergeEquals(FieldFold(cs, vs, ProviderMeta, init, n), cell);
      }
    }
  }

  /** Merging an object leaves just that object exactly when it has all the keys. */
  lemma MergeEquals(before: Cell, cell: Cell)
    requires IsMeta(before) && cell.Json? && cell.doc.Object?
    ensures var merged := Effect(ProviderMeta, before, cell);
            IsMeta(merged) && (merged == cell <==> KeysIn(merged) <= KeysIn(cell))
  {
    if before.Json? {
      var older, newer := before.doc.entries, cell.doc.entries;
      if (older + newer).Keys <= newer.Keys {
        assert older + newer == newer;
      }
    }
  }

  /**
    `provider_meta` is the exception: an object is merged into the map already
    there. The field ends as its last non-null document exactly when that document
    has the keys of every object since the last JSON null, and of the old map if
    there was no JSON null.
   */
  lemma MetaIsMerged(r: Record, columns: seq<Column>, cells: seq<Cell>)
    requires RowFits(columns, cells) && WellFormedJson(columns, cells, |columns|)
    ensures var last := AsField(LastNonNull(columns, cells, ProviderMeta, Get(r, ProviderMeta), |columns|));
            Get(AssignFirst(r, columns, Scanned(columns, cells), |columns|).record, ProviderMeta) == last <==>
            MergedWithin(columns, cells, Get(r, ProviderMeta), KeysIn(last))
  {
    var init := Get(r, ProviderMeta);
    var last := AsField(LastNonNull(columns, cells, ProviderMeta, init, |columns|));
    FieldsAreIndependent(r, columns, cells, ProviderMeta, |columns|);
    FoldEndsWithLast(columns, cells, init);
    FoldMerges(columns, cells, init, KeysIn(last));
  }

  /** The position after the last occurrence of the id column among the first `n`. */
  function LastId(columns: seq<Column>, n: nat): (i: nat)
    requires n <= |columns|
    ensures i <= n && (i > 0 ==> columns[i - 1] == ID)
  {
    if n == 0 then 0 else if columns[n - 1] == ID then n else LastId(columns, n - 1)
  }

  lemma {:induction false} IdFold(columns: seq<Column>, cells: seq<Cell>, init: Cell, n: nat)
    requires n <= |columns| == |cells|
    ensures var i := LastId(columns, n);
            FieldFold(columns, cells, ID, init, n) ==
            if i == 0 then init else if cells[i - 1].SqlNull? then Uid(NIL_UUID) else cells[i - 1]
    ensures var i := LastId(columns, n);
            (i == 0 ==> LastNonNull(columns, cells, ID, init, n) == init)
            && (i > 0 && !cells[i - 1].SqlNull? ==> LastNonNull(columns, cells, ID, init, n) == cells[i - 1])
  {
    if n > 0 {
      IdFold(columns, cells, init, n - 1);
    }
  }

  /**
    The id has a plain holder, so that a NULL reads as the nil uuid. It ends as its
    last non-null cell, or its old value, exactly when its last cell is not NULL, or
    there is none, or that value is the nil uuid.
   */
  lemma LastIdWinsIff(r: Record, columns: seq<Column>, cells: seq<Cell>)
    requires RowFits(columns, cells) && WellFormedJson(columns, cells, |columns|)
    ensures var i, last := LastId(columns, |columns|), LastNonNull(columns, cells, ID, Uid(r.id), |columns|);
            Get(AssignFirst(r, columns, Scanned(columns, cells), |columns|).record, ID) == last <==>
            i == 0 || !cells[i - 1].SqlNull? || last == Uid(NIL_UUID)
  {
    hide AssignFirst, AssignOne, Effect, EmptyHolder, Scan, FieldFold, LastNonNull, LastId, WellFormedJson;
    assert Get(r, ID) == Uid(r.id);
    FieldsAreIndependent(r, columns, cells, ID, |columns|);
    IdFold(columns, cells, Uid(r.id), |columns|);
  }

  // ---------------------------------------------------------------------
  // Creation
  // ---------------------------------------------------------------------

  /** The fields of a create mutation; an unset field is `None`, and `provider_meta` can be set to a nil map. */
  datatype Draft = Draft(
    id: Option<Uuid>,
    domain: Option<Uuid>,
    hostname: Option<string>,
    source: Option<string>,
    status: Option<string>,
    certificatePem: Option<string>,
    privateKeyEncrypted: Option<string>,
    issuer: Option<string>,
    serialNumber: Option<string>,
    issuedAt: Option<int>,
    expiresAt: Option<int>,
    lastRenewedAt: Option<int>,
    lastError: Option<string>,
    providerMeta: Option<Option<map<string, string>>>,
    renewAttempts: Option<int>,
    nextRenewAt: Option<int>,
    lastRenewError: Option<string>,
    createdAt: Option<int>,
    updatedAt: Option<int>
  )

  function Or<T>(o: Option<T>, default: T): T {
    if o.Some? then o.value else default
  }

  /** `defaults`: the schema's default values, and a fresh id. */
  function Defaults(d: Draft, newID: Uuid): Draft {
    d.(
      source := Some(Or(d.source, "manual")),
      status := Some(Or(d.status, "pending")),
      issuer := Some(Or(d.issuer, "")),
      serialNumber := Some(Or(d.serialNumber, "")),
      lastError := Some(Or(d.lastError, "")),
      renewAttempts := Some(Or(d.renewAttempts, 0)),
      lastRenewError := Some(Or(d.lastRenewError, "")),
      id := Some(Or(d.id, newID)))
  }

  /** The first missing or invalid field, in the order `check` looks at them. */
  function Check(d: Draft): Option<Column> {
    if d.hostname.None? || d.hostname.value == "" then Some(Hostname)
    else if d.source.None? then Some(Source)
    else if d.status.None? then Some(Status)
    else if d.certificatePem.None? || d.certificatePem.value == "" then Some(CertificatePem)
    else if d.privateKeyEncrypted.None? || d.privateKeyEncrypted.value == "" then Some(PrivateKeyEncrypted)
    else if d.renewAttempts.None? then Some(RenewAttempts)
    else if d.createdAt.None? then Some(CreatedAt)
    else if d.updatedAt.None? then Some(UpdatedAt)
    else None
  }

  /** The edge of the insert: the foreign-key column and the ids at its far end. */
  datatype EdgeSpec = EdgeSpec(column: Column, nodes: seq<Uuid>)

  datatype CreateSpec = CreateSpec(id: Option<Uuid>, fields: map<Column, Cell>, edges: seq<EdgeSpec>)

  /** The value a draft writes to a plain column. */
  function DraftCell(d: Draft, c: Column): Option<Cell> {
    match c
    case Hostname => OptText(d.hostname)
    case Source => OptText(d.source)
    case Status => OptText(d.status)
    case CertificatePem => OptText(d.certificatePem)
    case PrivateKeyEncrypted => OptText(d.privateKeyEncrypted)
    case Issuer => OptText(d.issuer)
    case SerialNumber => OptText(d.serialNumber)
    case IssuedAt => SomeTime(d.issuedAt)
    case ExpiresAt => SomeTime(d.expiresAt)
    case LastRenewedAt => SomeTime(d.lastRenewedAt)
    case LastError => OptText(d.lastError)
    case ProviderMeta => if d.providerMeta.Some? then Some(Json(Marshal(d.providerMeta.value))) else None
    case RenewAttempts => if d.renewAttempts.Some? then Some(Number(d.renewAttempts.value)) else None
    case NextRenewAt => SomeTime(d.nextRenewAt)
    case LastRenewError => OptText(d.lastRenewError)
    case CreatedAt => SomeTime(d.createdAt)
    case UpdatedAt => SomeTime(d.updatedAt)
    case ID | DomainID | Unknown(_) => None
  }

  function OptText(s: Option<string>): Option<Cell> {
    if s.Some? then Some(Text(s.value)) else None
  }

  function SomeTime(t: Option<int>): Option<Cell> {
    if t.Some? then Some(Time(t.value)) else None
  }

  function Marshal(m: Option<map<string, string>>): Doc {
    if m.Some? then Object(m.value) else JsonNull
  }

  /** The entity handed back to the caller. */
  function NodeOf(d: Draft): Record {
    Record(
      Or(d.id, NIL_UUID), d.domain, Or(d.hostname, ""), Or(d.source, ""), Or(d.status, ""), Or(d.certificatePem, ""),
      Or(d.privateKeyEncrypted, ""), Or(d.issuer, ""), Or(d.serialNumber, ""), d.issuedAt, d.expiresAt,
      d.lastRenewedAt, Or(d.lastError, ""), Or(d.providerMeta, None), Or(d.renewAttempts, 0), d.nextRenewAt,
      Or(d.lastRenewError, ""), Or(d.createdAt, ZERO_TIME), Or(d.updatedAt, ZERO_TIME), map[])
  }

  ghost predicate SpecFits(spec: CreateSpec, d: Draft) {
    && spec.id == d.id
    && spec.edges == (if d.domain.Some? then [EdgeSpec(DomainID, [d.domain.value])] else [])
    && (forall c | c in spec.fields :: DraftCell(d, c) == Some(spec.fields[c]))
    && (forall c | DraftCell(d, c).Some? :: c in spec.fields)
  }

  /** The fields written so far: those of the columns in `done` that the draft has. */
  ghost predicate Written(d: Draft, fields: map<Column, Cell>, done: set<Column>) {
    && (forall c | c in fields :: c in done && DraftCell(d, c) == Some(fields[c]))
    && (forall c | c in done && DraftCell(d, c).Some? :: c in fields)
  }

  /** `SetField` under the guard that the mutation has the field. */
  method SetField(d: Draft, fields: map<Column, Cell>, ghost done: set<Column>, c: Column)
    returns (r: map<Column, Cell>, ghost now: set<Column>)
    requires Written(d, fields, done)
    ensures r == if DraftCell(d, c).Some? then fields[c := DraftCell(d, c).value] else fields
    ensures Written(d, r, now) && now == done + {c}
  {
    now := done + {c};
    var v := DraftCell(d, c);
    r := if v.Some? then fields[c := v.value] else fields;
  }

  /** The entity and the request of an insert. */
  method CreateSpecOf(d: Draft) returns (node: Certificate, spec: CreateSpec)
    ensures fresh(node) && node.record == NodeOf(d)
    ensures SpecFits(spec, d)
  {
    node := new Certificate();
    node.record := FillNode(d, node.record);
    var fields := WriteFields(d);
    var edges := [];
    if d.domain.Some? {
      edges := [EdgeSpec(DomainID, [d.domain.value])];
    }
    spec := CreateSpec(d.id, fields, edges);
  }

  lemma AllWritable(d: Draft, done: set<Column>)
    requires Hostname in done && Source in done && Status in done && CertificatePem in done
    requires PrivateKeyEncrypted in done && Issuer in done && SerialNumber in done && IssuedAt in done
    requires ExpiresAt in done && LastRenewedAt in done && LastError in done && ProviderMeta in done
    requires RenewAttempts in done && NextRenewAt in done && LastRenewError in done
    requires CreatedAt in done && UpdatedAt in done
    ensures forall c | DraftCell(d, c).Some? :: c in done
  {
  }

  const PLAIN_COLUMNS: set<Column> :=
    {Hostname, Source, Status, CertificatePem, PrivateKeyEncrypted, Issuer, SerialNumber, IssuedAt, ExpiresAt,
     LastRenewedAt, LastError, ProviderMeta, RenewAttempts, NextRenewAt, LastRenewError, CreatedAt, UpdatedAt}

  /** The request of a draft as a value. */
  function SpecOf(d: Draft): CreateSpec {
    CreateSpec(
      d.id,
      map c | c in PLAIN_COLUMNS && DraftCell(d, c).Some? :: DraftCell(d, c).value,
      if d.domain.Some? then [EdgeSpec(DomainID, [d.domain.value])] else [])
  }

  /** A request says exactly what its draft says: there is only one that fits. */
  lemma SpecIsUnique(spec: CreateSpec, d: Draft)
    ensures SpecFits(spec, d) <==> spec == SpecOf(d)
  {
    AllWritable(d, PLAIN_COLUMNS);
    if SpecFits(spec, d) {
      assert spec.fields == SpecOf(d).fields;
    }
  }

  /** The columns that the schema requires of the caller or fills by default, the id apart, in the schema's order. */
  const REQUIRED: seq<Column> :=
    [Hostname, Source, Status, CertificatePem, PrivateKeyEncrypted, RenewAttempts, CreatedAt, UpdatedAt]

  /** The request writes the column, and no empty text where the schema wants one that is not. */
  predicate Acceptable(spec: CreateSpec, c: Column) {
    && c in spec.fields
    && (c in {Hostname, CertificatePem, PrivateKeyEncrypted} ==> spec.fields[c] != Text(""))
  }

  lemma FieldOfSpec(d: Draft, c: Column)
    requires c in PLAIN_COLUMNS
    ensures c in SpecOf(d).fields <==> DraftCell(d, c).Some?
    ensures c in SpecOf(d).fields ==> Some(SpecOf(d).fields[c]) == DraftCell(d, c)
  {
  }

  /** The first `k` required columns are acceptable, and the next one is not. */
  predicate FirstOffender(spec: CreateSpec, k: nat) {
    k < |REQUIRED| && !Acceptable(spec, REQUIRED[k]) && forall j | 0 <= j < k :: Acceptable(spec, REQUIRED[j])
  }

  lemma RequiredInOrder(k: nat)
    requires k < |REQUIRED|
    ensures |REQUIRED| == 8
    ensures REQUIRED[k] ==
            if k == 0 then Hostname else if k == 1 then Source else if k == 2 then Status
            else if k == 3 then CertificatePem else if k == 4 then PrivateKeyEncrypted
            else if k == 5 then RenewAttempts else if k == 6 then CreatedAt else UpdatedAt
  {
  }

  /** What `check` wants of a required column, for the draft itself. */
  predicate Provided(d: Draft, c: Column) {
    && DraftCell(d, c).Some?
    && (c in {Hostname, CertificatePem, PrivateKeyEncrypted} ==> DraftCell(d, c) != Some(Text("")))
  }

  lemma ProvidedIsAcceptable(d: Draft, k: nat)
    requires k < |REQUIRED|
    ensures Acceptable(SpecOf(d), REQUIRED[k]) <==> Provided(d, REQUIRED[k])
  {
    hide SpecOf, REQUIRED;
    RequiredInOrder(k);
    FieldOfSpec(d, REQUIRED[k]);
  }

  /** The column that `check` names, as a position among the required ones. */
  lemma CheckNames(d: Draft) returns (k: nat)
    ensures Check(d).None? ==> k == |REQUIRED| && forall j | 0 <= j < |REQUIRED| :: Provided(d, REQUIRED[j])
    ensures Check(d).Some? ==>
              && k < |REQUIRED| && Check(d).value == REQUIRED[k] && !Provided(d, REQUIRED[k])
              && forall j | 0 <= j < k :: Provided(d, REQUIRED[j])
  {
    k := 0;
    while k < |REQUIRED| && Provided(d, REQUIRED[k])
      invariant k <= |REQUIRED| && forall j | 0 <= j < k :: Provided(d, REQUIRED[j])
    {
      k := k + 1;
    }
    assert |REQUIRED| == 8 && REQUIRED[0] == Hostname && REQUIRED[1] == Source && REQUIRED[2] == Status;
    assert REQUIRED[3] == CertificatePem && REQUIRED[4] == PrivateKeyEncrypted && REQUIRED[5] == RenewAttempts;
    assert REQUIRED[6] == CreatedAt && REQUIRED[7] == UpdatedAt;
  }

  /**
    `check` passes exactly when the request is acceptable in every required column;
    otherwise it names the first one in which it is not.
   */
  lemma CheckGuardsRequired(d: Draft)
    ensures Check(d).None? <==> forall c | c in REQUIRED :: Acceptable(SpecOf(d), c)
    ensures Check(d).Some? ==> exists k: nat :: FirstOffender(SpecOf(d), k) && REQUIRED[k] == Check(d).value
  {
    hide SpecOf, Check, Acceptable, Provided, REQUIRED;
    var k := CheckNames(d);
    forall j | 0 <= j < |REQUIRED|
      ensures Acceptable(SpecOf(d), REQUIRED[j]) <==> Provided(d, REQUIRED[j])
    {
      ProvidedIsAcceptable(d, j);
    }
    if Check(d).Some? {
      assert FirstOffender(SpecOf(d), k) && REQUIRED[k] in REQUIRED;
    } else {
      forall c | c in REQUIRED
        ensures Acceptable(SpecOf(d), c)
      {
        var j :| 0 <= j < |REQUIRED| && REQUIRED[j] == c;
      }
    }
  }

  method WriteFields(d: Draft) returns (fields: map<Column, Cell>)
    ensures forall c | c in fields :: DraftCell(d, c) == Some(fields[c])
    ensures forall c | DraftCell(d, c).Some? :: c in fields
  {
    hide DraftCell;
    fields := map[];
    ghost var done := {};
    fields, done := SetField(d, fields, done, Hostname);
    fields, done := SetField(d, fields, done, Source);
    fields, done := SetField(d, fields, done, Status);
    fields, done := SetField(d, fields, done, CertificatePem);
    fields, done := SetField(d, fields, done, PrivateKeyEncrypted);
    fields, done := SetField(d, fields, done, Issuer);
    fields, done := SetField(d, fields, done, SerialNumber);
    fields, done := SetField(d, fields, done, IssuedAt);
    fields, done := SetField(d, fields, done, ExpiresAt);
    fields, done := SetField(d, fields, done, LastRenewedAt);
    fields, done := SetField(d, fields, done, LastError);
    fields, done := SetField(d, fields, done, ProviderMeta);
    fields, done := SetField(d, fields, done, RenewAttempts);
    fields, done := SetField(d, fields, done, NextRenewAt);
    fields, done := SetField(d, fields, done, LastRenewError);
    fields, done := SetField(d, fields, done, CreatedAt);
    fields, done := SetField(d, fields, done, UpdatedAt);
    AllWritable(d, done);
  }

  method FillNode(d: Draft, zero: Record) returns (r: Record)
    requires zero == ZERO
    ensures r == NodeOf(d)
  {
    r := zero.(id := Or(d.id, zero.id), domainID := if d.domain.Some? then d.domain else zero.domainID);
    r := r.(hostname := Or(d.hostname, r.hostname));
    r := r.(source := Or(d.source, r.source));
    r := r.(status := Or(d.status, r.status));
    r := r.(certificatePem := Or(d.certificatePem, r.certificatePem));
    r := r.(privateKeyEncrypted := Or(d.privateKeyEncrypted, r.privateKeyEncrypted));
    r := r.(issuer := Or(d.issuer, r.issuer));
    r := r.(serialNumber := Or(d.serialNumber, r.serialNumber));
    r := r.(issuedAt := if d.issuedAt.Some? then d.issuedAt else r.issuedAt);
    r := r.(expiresAt := if d.expiresAt.Some? then d.expiresAt else r.expiresAt);
    r := r.(lastRenewedAt := if d.lastRenewedAt.Some? then d.lastRenewedAt else r.lastRenewedAt);
    r := r.(lastError := Or(d.lastError, r.lastError));
    r := r.(providerMeta := Or(d.providerMeta, r.providerMeta));
    r := r.(renewAttempts := Or(d.renewAttempts, r.renewAttempts));
    r := r.(nextRenewAt := if d.nextRenewAt.Some? then d.nextRenewAt else r.nextRenewAt);
    r := r.(lastRenewError := Or(d.lastRenewError, r.lastRenewError));
    r := r.(createdAt := Or(d.createdAt, r.createdAt));
    r := r.(updatedAt := Or(d.updatedAt, r.updatedAt));
  }

  /** The row an insert leaves in the table; columns that were not written are NULL. */
  function Stored(spec: CreateSpec, c: Column): Cell {
    if c == ID then if spec.id.Some? then Uid(spec.id.value) else SqlNull
    else if c in spec.fields then spec.fields[c]
    else if |spec.edges| > 0 && spec.edges[0].column == c && |spec.edges[0].nodes| > 0 then Uid(spec.edges[0].nodes[0])
    else SqlNull
  }

  function StoredCells(spec: CreateSpec, columns: seq<Column>): (cells: seq<Cell>)
    ensures |cells| == |columns|
    ensures forall i :: 0 <= i < |columns| ==> cells[i] == Stored(spec, columns[i])
  {
    seq(|columns|, i requires 0 <= i < |columns| => Stored(spec, columns[i]))
  }

  lemma StoredCell(d: Draft, spec: CreateSpec, c: Column)
    requires SpecFits(spec, d) && d.id.Some? && !c.Unknown?
    ensures Stored(spec, c) ==
            if c == ID then Uid(d.id.value)
            else if c == DomainID then if d.domain.Some? then Uid(d.domain.value) else SqlNull
            else Or(DraftCell(d, c), SqlNull)
  {
  }

  lemma StoredText(d: Draft, spec: CreateSpec, c: Column)
    requires SpecFits(spec, d) && d.id.Some? && !c.Unknown? && KindOf(c) == TextKind
    ensures Fits(c, Stored(spec, c)) && Stored(spec, c) != Json(Malformed)
    ensures Effect(c, Get(ZERO, c), Stored(spec, c)) == Get(NodeOf(d), c)
    ensures Effect(c, Get(NodeOf(d), c), Stored(spec, c)) == Get(NodeOf(d), c)
  {
    hide SpecFits, Stored;
    StoredCell(d, spec, c);
  }

  lemma StoredTime(d: Draft, spec: CreateSpec, c: Column)
    requires SpecFits(spec, d) && d.id.Some? && !c.Unknown? && KindOf(c) == TimeKind
    ensures Fits(c, Stored(spec, c)) && Stored(spec, c) != Json(Malformed)
    ensures Effect(c, Get(ZERO, c), Stored(spec, c)) == Get(NodeOf(d), c)
    ensures Effect(c, Get(NodeOf(d), c), Stored(spec, c)) == Get(NodeOf(d), c)
  {
    hide SpecFits, Stored;
    StoredCell(d, spec, c);
  }

  lemma StoredMeta(d: Draft, spec: CreateSpec)
    requires SpecFits(spec, d) && d.id.Some?
    ensures Fits(ProviderMeta, Stored(spec, ProviderMeta)) && Stored(spec, ProviderMeta) != Json(Malformed)
    ensures Effect(ProviderMeta, Get(ZERO, ProviderMeta), Stored(spec, ProviderMeta)) == Get(NodeOf(d), ProviderMeta)
    ensures Effect(ProviderMeta, Get(NodeOf(d), ProviderMeta), Stored(spec, ProviderMeta)) ==
            Get(NodeOf(d), ProviderMeta)
  {
    hide SpecFits, Stored;
    StoredCell(d, spec, ProviderMeta);
  }

  lemma StoredOther(d: Draft, spec: CreateSpec, c: Column)
    requires SpecFits(spec, d) && d.id.Some? && c in {ID, DomainID, RenewAttempts}
    ensures Fits(c, Stored(spec, c)) && Stored(spec, c) != Json(Malformed)
    ensures Effect(c, Get(ZERO, c), Stored(spec, c)) == Get(NodeOf(d), c)
    ensures Effect(c, Get(NodeOf(d), c), Stored(spec, c)) == Get(NodeOf(d), c)
  {
    hide SpecFits, Stored;
    StoredCell(d, spec, c);
  }

  lemma StoredFits(d: Draft, spec: CreateSpec, c: Column)
    requires SpecFits(spec, d) && d.id.Some? && !c.Unknown?
    ensures Fits(c, Stored(spec, c)) && Stored(spec, c) != Json(Malformed)
    ensures Effect(c, Get(ZERO, c), Stored(spec, c)) == Get(NodeOf(d), c)
    ensures Effect(c, Get(NodeOf(d), c), Stored(spec, c)) == Get(NodeOf(d), c)
  {
    match KindOf(c)
    case TextKind => StoredText(d, spec, c);
    case TimeKind => StoredTime(d, spec, c);
    case OtherKind =>
      if c == ProviderMeta {
        StoredMeta(d, spec);
      } else {
        StoredOther(d, spec, c);
      }
  }

  lemma {:induction false} FoldOfStored(d: Draft, spec: CreateSpec, columns: seq<Column>, k: Column, n: nat)
    requires SpecFits(spec, d) && d.id.Some? && n <= |columns|
    requires forall c :: c in columns ==> !c.Unknown?
    ensures !k.Unknown? ==>
              FieldFold(columns, StoredCells(spec, columns), k, Get(ZERO, k), n) ==
              if k in columns[..n] then Get(NodeOf(d), k) else Get(ZERO, k)
    ensures k.Unknown? ==> FieldFold(columns, StoredCells(spec, columns), k, Get(ZERO, k), n) == Get(ZERO, k)
  {
    if n > 0 {
      FoldOfStored(d, spec, columns, k, n - 1);
      assert columns[..n] == columns[..n - 1] + [columns[n - 1]];
      assert columns[n - 1] in columns;
      if columns[n - 1] == k {
        StoredFits(d, spec, k);
      }
    }
  }

  lemma TextsDetermine(a: Record, b: Record)
    requires forall k: Column | !k.Unknown? :: Get(a, k) == Get(b, k)
    ensures a.hostname == b.hostname && a.source == b.source && a.status == b.status
    ensures a.certificatePem == b.certificatePem && a.privateKeyEncrypted == b.privateKeyEncrypted
    ensures a.issuer == b.issuer && a.serialNumber == b.serialNumber
    ensures a.lastError == b.lastError && a.lastRenewError == b.lastRenewError
  {
    assert Get(a, Hostname) == Get(b, Hostname) && Get(a, Source) == Get(b, Source) && Get(a, Status) == Get(b, Status);
    assert Get(a, CertificatePem) == Get(b, CertificatePem);
    assert Get(a, PrivateKeyEncrypted) == Get(b, PrivateKeyEncrypted);
    assert Get(a, Issuer) == Get(b, Issuer) && Get(a, SerialNumber) == Get(b, SerialNumber);
    assert Get(a, LastError) == Get(b, LastError) && Get(a, LastRenewError) == Get(b, LastRenewError);
  }

  lemma TimesDetermine(a: Record, b: Record)
    requires forall k: Column | !k.Unknown? :: Get(a, k) == Get(b, k)
    ensures a.issuedAt == b.issuedAt && a.expiresAt == b.expiresAt && a.lastRenewedAt == b.lastRenewedAt
    ensures a.nextRenewAt == b.nextRenewAt && a.createdAt == b.createdAt && a.updatedAt == b.updatedAt
  {
    assert Get(a, IssuedAt) == Get(b, IssuedAt) && Get(a, ExpiresAt) == Get(b, ExpiresAt);
    assert Get(a, LastRenewedAt) == Get(b, LastRenewedAt) && Get(a, NextRenewAt) == Get(b, NextRenewAt);
    assert Get(a, CreatedAt) == Get(b, CreatedAt) && Get(a, UpdatedAt) == Get(b, UpdatedAt);
  }

  lemma OthersDetermine(a: Record, b: Record)
    requires forall k: Column | !k.Unknown? :: Get(a, k) == Get(b, k)
    ensures a.id == b.id && a.domainID == b.domainID
    ensures a.providerMeta == b.providerMeta && a.renewAttempts == b.renewAttempts
  {
    assert Get(a, ID) == Get(b, ID) && Get(a, DomainID) == Get(b, DomainID);
    assert Get(a, ProviderMeta) == Get(b, ProviderMeta) && Get(a, RenewAttempts) == Get(b, RenewAttempts);
  }

  /** A record is determined by its fields. */
  lemma FieldsDetermine(a: Record, b: Record)
    requires forall k: Column | !k.Unknown? :: Get(a, k) == Get(b, k)
    requires a.selectValues == b.selectValues
    ensures a == b
  {
    hide Get;
    TextsDetermine(a, b);
    TimesDetermine(a, b);
    OthersDetermine(a, b);
  }

  lemma {:induction false} KnownColumnsOnly(r: Record, columns: seq<Column>, values: seq<Holder>, n: nat)
    requires n <= |columns| <= |values| && forall c :: c in columns ==> !c.Unknown?
    ensures AssignFirst(r, columns, values, n).record.selectValues == r.selectValues
  {
    if n > 0 {
      KnownColumnsOnly(r, columns, values, n - 1);
      assert columns[n - 1] in columns;
    }
  }

  ghost predicate CoversAll(columns: seq<Column>) {
    forall k: Column | !k.Unknown? :: k in columns
  }

  /**
    Write, then read: whatever a draft with an id stores is read back as the very
    entity that the create returned, unset, nil and null fields included. The
    columns may come in any order and any number of times, as long as each is there.
   */
  lemma RoundTrip(d: Draft, spec: CreateSpec, columns: seq<Column>)
    requires d.id.Some? && SpecFits(spec, d)
    requires CoversAll(columns) && forall c :: c in columns ==> !c.Unknown?
    ensures RowFits(columns, StoredCells(spec, columns))
    ensures AssignFirst(ZERO, columns, Scanned(columns, StoredCells(spec, columns)), |columns|) ==
            Step(NodeOf(d), None)
  {
    var cells := StoredCells(spec, columns);
    forall i | 0 <= i < |columns|
      ensures Fits(columns[i], cells[i]) && cells[i] != Json(Malformed)
    {
      assert columns[i] in columns;
      StoredFits(d, spec, columns[i]);
    }
    var step := AssignFirst(ZERO, columns, Scanned(columns, cells), |columns|);
    FieldsAreIndependent(ZERO, columns, cells, ID, |columns|);
    forall k: Column | !k.Unknown?
      ensures Get(step.record, k) == Get(NodeOf(d), k)
    {
      FieldsAreIndependent(ZERO, columns, cells, k, |columns|);
      FoldOfStored(d, spec, columns, k, |columns|);
      assert columns[..|columns|] == columns;
    }
    KnownColumnsOnly(ZERO, columns, Scanned(columns, cells), |columns|);
    FieldsDetermine(step.record, NodeOf(d));
  }

  /** An entity has the values of a draft, and zero values where the draft has none. */
  predicate Carries(r: Record, d: Draft) {
    && r.id == Or(d.id, NIL_UUID) && r.domainID == d.domain
    && r.hostname == Or(d.hostname, "") && r.source == Or(d.source, "") && r.status == Or(d.status, "")
    && r.certificatePem == Or(d.certificatePem, "") && r.privateKeyEncrypted == Or(d.privateKeyEncrypted, "")
    && r.issuer == Or(d.issuer, "") && r.serialNumber == Or(d.serialNumber, "")
    && r.issuedAt == d.issuedAt && r.expiresAt == d.expiresAt && r.lastRenewedAt == d.lastRenewedAt
    && r.lastError == Or(d.lastError, "") && r.providerMeta == Or(d.providerMeta, None)
    && r.renewAttempts == Or(d.renewAttempts, 0) && r.nextRenewAt == d.nextRenewAt
    && r.lastRenewError == Or(d.lastRenewError, "")
    && r.createdAt == Or(d.createdAt, ZERO_TIME) && r.updatedAt == Or(d.updatedAt, ZERO_TIME)
  }

  /** What was set on the create is what is read back, field by field. */
  lemma ReadsBackDraft(d: Draft, spec: CreateSpec, columns: seq<Column>)
    requires d.id.Some? && SpecFits(spec, d)
    requires CoversAll(columns) && forall c :: c in columns ==> !c.Unknown?
    ensures RowFits(columns, StoredCells(spec, columns))
    ensures Carries(AssignFirst(ZERO, columns, Scanned(columns, StoredCells(spec, columns)), |columns|).record, d)
  {
    hide AssignFirst, StoredCells, SpecFits, CoversAll;
    RoundTrip(d, spec, columns);
  }

  /** The schema's default of a column. */
  function SchemaDefault(c: Column): Option<Cell> {
    match c
    case Source => Some(Text("manual"))
    case Status => Some(Text("pending"))
    case Issuer | SerialNumber | LastError | LastRenewError => Some(Text(""))
    case RenewAttempts => Some(Number(0))
    case _ => None
  }

  /** What a create writes to a plain column: what the caller set, and otherwise the default. */
  function OrDefault(d: Draft, c: Column): Option<Cell> {
    if DraftCell(d, c).Some? then DraftCell(d, c) else SchemaDefault(c)
  }

  /** `defaults` fills what the caller left unset, with the schema's default, and leaves alone what the caller set. */
  lemma DefaultsAreExact(d: Draft, newID: Uuid)
    ensures forall c :: DraftCell(Defaults(d, newID), c) == OrDefault(d, c)
    ensures Defaults(d, newID).id == (if d.id.Some? then d.id else Some(newID))
    ensures Defaults(d, newID).domain == d.domain
  {
    forall c
      ensures DraftCell(Defaults(d, newID), c) == OrDefault(d, c)
    {
      DefaultOf(d, newID, c);
    }
  }

  lemma DefaultOf(d: Draft, newID: Uuid, c: Column)
    ensures DraftCell(Defaults(d, newID), c) == OrDefault(d, c)
  {
  }

  /** The request of a create: the caller's id or the new one, the caller's edge, and every value or default. */
  ghost predicate Creates(d: Draft, newID: Uuid, spec: CreateSpec) {
    && spec.id == (if d.id.Some? then d.id else Some(newID))
    && spec.edges == (if d.domain.Some? then [EdgeSpec(DomainID, [d.domain.value])] else [])
    && (forall c :: c in spec.fields <==> OrDefault(d, c).Some?)
    && (forall c | c in spec.fields :: OrDefault(d, c) == Some(spec.fields[c]))
  }

  lemma DefaultedRequest(d: Draft, newID: Uuid)
    ensures Creates(d, newID, SpecOf(Defaults(d, newID)))
  {
    hide Defaults, DraftCell, SchemaDefault, SpecOf;
    DefaultsAreExact(d, newID);
    SpecIsUnique(SpecOf(Defaults(d, newID)), Defaults(d, newID));
  }

  /** After `defaults` the only fields `check` can still miss are the caller's own. */
  lemma DefaultsLeaveCallerFields(d: Draft, newID: Uuid)
    ensures Defaults(d, newID).id.Some?
    ensures Check(Defaults(d, newID)).Some? ==>
              Check(Defaults(d, newID)).value in {Hostname, CertificatePem, PrivateKeyEncrypted, CreatedAt, UpdatedAt}
    ensures Defaults(Defaults(d, newID), newID) == Defaults(d, newID)
  {
  }
}
