/** app/repositories/base.py: `TenantAwareBaseRepository`.

    A table is the list of its rows in the order the database returns them. Row
    identifiers come from a database sequence and are inputs. */
module TenantRepository {
  import opened Wrappers
  import Pagination

  datatype Value = Null | Number(n: int) | Text(s: string)

  type Columns = map<string, Value>

  datatype Row = Row(id: int, cols: Columns)

  datatype Op =
    | Get(id: int)
    | GetAll(skip: int, limit: int)
    | Create(newId: int, data: Columns)
    | Update(id: int, data: Columns)
    | Delete(id: int)
    | Count
    | Exists(id: int)
    | Paginate(page: int, pageSize: int)
    | FilterBy(criteria: Columns)
    | FirstBy(criteria: Columns)

  datatype Answer =
    | Lookup(row: Option<Row>)
    | Rows(rows: seq<Row>)
    | Page(result: Pagination.PaginatedResult<Row>)
    | Total(n: nat)
    | Flag(b: bool)
    | PaginationError
    | InvalidKeyword // TypeError: an unknown column passed to the model
    | DatabaseError  // a negative LIMIT or OFFSET

  // ---------------------------------------------------------- specification

  /** The row carries the tenant. */
  predicate Owns(tenant: int, row: Row) {
    "tenant_id" in row.cols && row.cols["tenant_id"] == Number(tenant)
  }

  /** `_tenant_query()` */
  function TenantQuery(rows: seq<Row>, tenant: int): (r: seq<Row>) {
    if rows == [] then [] else
      (if Owns(tenant, rows[0]) then [rows[0]] else []) + TenantQuery(rows[1..], tenant)
  }

  /** Criteria on unknown columns are ignored; NULL columns are stored. */
  predicate Matches(columns: set<string>, criteria: Columns, row: Row) {
    forall k :: k in criteria && k in columns ==> k in row.cols && row.cols[k] == criteria[k]
  }

  function Filter(columns: set<string>, rows: seq<Row>, criteria: Columns): seq<Row> {
    if rows == [] then [] else
      (if Matches(columns, criteria, rows[0]) then [rows[0]] else []) + Filter(columns, rows[1..], criteria)
  }

  function First(rows: seq<Row>): Option<Row> {
    if rows == [] then None else Some(rows[0])
  }

  function Find(rows: seq<Row>, tenant: int, id: int): Option<Row> {
    if rows == [] then None
    else if Owns(tenant, rows[0]) && rows[0].id == id then Some(rows[0])
    else Find(rows[1..], tenant, id)
  }

  /** A new row: `tenant_id` is forced, whatever `data` says. */
  function NewRow(columns: set<string>, tenant: int, id: int, data: Columns): Row {
    Row(id, (map c | c in columns :: if c in data then data[c] else Null)["tenant_id" := Number(tenant)])
  }

  /** The row after the setattr loop: known columns other than `tenant_id`. */
  function Edited(columns: set<string>, row: Row, data: Columns): Row {
    row.(cols := row.cols + map c | c in data && c in columns && c != "tenant_id" :: data[c])
  }

  function EditFirst(columns: set<string>, rows: seq<Row>, tenant: int, id: int, data: Columns): seq<Row> {
    if rows == [] then []
    else if Owns(tenant, rows[0]) && rows[0].id == id then [Edited(columns, rows[0], data)] + rows[1..]
    else [rows[0]] + EditFirst(columns, rows[1..], tenant, id, data)
  }

  function RemoveFirst(rows: seq<Row>, tenant: int, id: int): seq<Row> {
    if rows == [] then []
    else if Owns(tenant, rows[0]) && rows[0].id == id then rows[1..]
    else [rows[0]] + RemoveFirst(rows[1..], tenant, id)
  }

  function Step(columns: set<string>, rows: seq<Row>, tenant: int, op: Op): (seq<Row>, Answer) {
    match op
    case Get(id) => (rows, Lookup(Find(rows, tenant, id)))
    case GetAll(skip, limit) =>
      (rows, if skip < 0 || limit < 0 then DatabaseError
             else Rows(Pagination.Slice(TenantQuery(rows, tenant), skip, limit)))
    case Create(id, data) =>
      if data.Keys <= columns
      then var row := NewRow(columns, tenant, id, data); (rows + [row], Lookup(Some(row)))
      else (rows, InvalidKeyword)
    case Update(id, data) =>
      (match Find(rows, tenant, id)
       case None => (rows, Lookup(None))
       case Some(row) =>
         (EditFirst(columns, rows, tenant, id, data), Lookup(Some(Edited(columns, row, data)))))
    case Delete(id) => (RemoveFirst(rows, tenant, id), Flag(Find(rows, tenant, id).Some?))
    case Count => (rows, Total(|TenantQuery(rows, tenant)|))
    case Exists(id) => (rows, Flag(Find(rows, tenant, id).Some?))
    case Paginate(page, pageSize) =>
      (rows, match Pagination.Paginate(TenantQuery(rows, tenant), page, pageSize)
             case None => PaginationError
             case Some(result) => Page(result))
    case FilterBy(criteria) => (rows, Rows(Filter(columns, TenantQuery(rows, tenant), criteria)))
    case FirstBy(criteria) => (rows, Lookup(First(Filter(columns, TenantQuery(rows, tenant), criteria))))
  }

  // --------------------------------------------------------- implementation

  /** The SQLAlchemy session, as far as one model is concerned. */
  class Session {
    const columns: set<string>
    var rows: seq<Row>

    constructor (columns: set<string>)
      ensures this.columns == columns && rows == []
    {
      this.columns := columns;
      rows := [];
    }
  }

  class TenantAwareRepository {
    const session: Session
    const tenantId: int

    constructor (session: Session, tenantId: int)
      ensures this.session == session && this.tenantId == tenantId
    {
      this.session := session;
      this.tenantId := tenantId;
    }

    /** The position of the first row of the tenant with this id, if any. */
    method Locate(id: int) returns (i: nat)
      ensures i <= |session.rows|
      ensures i < |session.rows| ==>
        Find(session.rows, tenantId, id) == Some(session.rows[i])
        && Owns(tenantId, session.rows[i]) && session.rows[i].id == id
      ensures i == |session.rows| ==> Find(session.rows, tenantId, id) == None
      ensures forall j :: 0 <= j < i ==> !(Owns(tenantId, session.rows[j]) && session.rows[j].id == id)
    {
      i := 0;
      while i < |session.rows|
        invariant i <= |session.rows|
        invariant forall j :: 0 <= j < i ==> !(Owns(tenantId, session.rows[j]) && session.rows[j].id == id)
        invariant Find(session.rows, tenantId, id) == Find(session.rows[i..], tenantId, id)
      {
        if Owns(tenantId, session.rows[i]) && session.rows[i].id == id {
          return;
        }
        i := i + 1;
      }
    }

    method Create(newId: int, data: Columns) returns (a: Answer)
      modifies session
      ensures (session.rows, a) == Step(session.columns, old(session.rows), tenantId, Op.Create(newId, data))
    {
      var dataWithTenant := data["tenant_id" := Number(tenantId)];
      if data.Keys <= session.columns {
        var obj := Row(newId, (map c | c in session.columns :: if c in data then data[c] else Null) + dataWithTenant);
        assert obj == NewRow(session.columns, tenantId, newId, data);
        session.rows := session.rows + [obj];
        a := Lookup(Some(obj));
      } else {
        a := InvalidKeyword;
      }
    }

    method Update(id: int, data: Columns) returns (a: Answer)
      modifies session
      ensures (session.rows, a) == Step(session.columns, old(session.rows), tenantId, Op.Update(id, data))
    {
      var i := Locate(id);
      if i == |session.rows| {
        return Lookup(None);
      }
      var kept := data;
      if "tenant_id" in kept {
        kept := map k | k in kept && k != "tenant_id" :: kept[k];
      }
      SetAttributes(i, kept);
      assert Edited(session.columns, old(session.rows)[i], kept) == Edited(session.columns, old(session.rows)[i], data);
      EditAt(session.columns, old(session.rows), tenantId, id, data, i);
      a := Lookup(Some(session.rows[i]));
    }

    /** The loop that sets the known columns one by one. */
    method SetAttributes(i: nat, data: Columns)
      requires i < |session.rows| && "tenant_id" !in data
      modifies session
      ensures session.rows == old(session.rows)[i := Edited(session.columns, old(session.rows)[i], data)]
    {
      var rest := data.Keys;
      ghost var row := session.rows[i];
      assert Edited(session.columns, row, data - rest) == row;
      while rest != {}
        invariant rest <= data.Keys
        invariant session.rows == old(session.rows)[i := Edited(session.columns, row, data - rest)]
      {
        var key :| key in rest;
        EditOneMore(session.columns, row, data - rest, key, data[key]);
        assert data - (rest - {key}) == (data - rest)[key := data[key]];
        rest := rest - {key};
        if key in session.columns {
          session.rows := session.rows[i := session.rows[i].(cols := session.rows[i].cols[key := data[key]])];
        }
      }
      assert data - rest == data;
    }

    method Delete(id: int) returns (a: Answer)
      modifies session
      ensures (session.rows, a) == Step(session.columns, old(session.rows), tenantId, Op.Delete(id))
    {
      var i := Locate(id);
      RemoveAt(session.rows, tenantId, id, i);
      if i == |session.rows| {
        return Flag(false);
      }
      session.rows := session.rows[..i] + session.rows[i + 1..];
      a := Flag(true);
    }
  }

  /** One turn of the setattr loop. */
  lemma EditOneMore(columns: set<string>, row: Row, data: Columns, key: string, value: Value)
    requires key != "tenant_id"
    ensures Edited(columns, row, data[key := value])
         == var r := Edited(columns, row, data); if key in columns then r.(cols := r.cols[key := value]) else r
  {
    assert Edited(columns, row, data[key := value]).cols
        == if key in columns then Edited(columns, row, data).cols[key := value] else Edited(columns, row, data).cols;
  }

  lemma {:induction false} EditAt(columns: set<string>, rows: seq<Row>, tenant: int, id: int, data: Columns, i: nat)
    requires i < |rows| && Owns(tenant, rows[i]) && rows[i].id == id
    requires forall j :: 0 <= j < i ==> !(Owns(tenant, rows[j]) && rows[j].id == id)
    ensures EditFirst(columns, rows, tenant, id, data) == rows[i := Edited(columns, rows[i], data)]
  {
    if i > 0 {
      EditAt(columns, rows[1..], tenant, id, data, i - 1);
    }
  }

  lemma {:induction false} RemoveAt(rows: seq<Row>, tenant: int, id: int, i: nat)
    requires i <= |rows| && (i < |rows| ==> Owns(tenant, rows[i]) && rows[i].id == id)
    requires forall j :: 0 <= j < i ==> !(Owns(tenant, rows[j]) && rows[j].id == id)
    ensures RemoveFirst(rows, tenant, id) == if i < |rows| then rows[..i] + rows[i + 1..] else rows
  {
    if i > 0 {
      RemoveAt(rows[1..], tenant, id, i - 1);
    }
  }

  // ----------------------------------------------------------------- queries

  /** `sel` lists, in table order and at the positions `idx`, exactly the rows
      that pass. */
  ghost predicate IsSelection(rows: seq<Row>, sel: seq<Row>, idx: seq<nat>, pass: Row -> bool) {
    && |idx| == |sel|
    && (forall k :: 0 <= k < |idx| ==> idx[k] < |rows| && sel[k] == rows[idx[k]])
    && (forall j, k :: 0 <= j < k < |idx| ==> idx[j] < idx[k])
    && (forall i :: 0 <= i < |rows| ==> (i in idx <==> pass(rows[i])))
  }

  lemma SelectionAppend(rows: seq<Row>, sel: seq<Row>, idx: seq<nat>, pass: Row -> bool, row: Row)
    requires IsSelection(rows, sel, idx, pass)
    ensures pass(row) ==> IsSelection(rows + [row], sel + [row], idx + [|rows|], pass)
    ensures !pass(row) ==> IsSelection(rows + [row], sel, idx, pass)
  {
    var longer := idx + [|rows|];
    forall i | 0 <= i < |rows| ensures i in longer <==> i in idx {
    }
    assert longer[|idx|] == |rows|;
  }

  predicate HasTenant(tenant: int, row: Row) {
    ("tenant_id", Number(tenant)) in row.cols.Items
  }

  function OwnedBy(tenant: int): Row -> bool {
    (row: Row) => HasTenant(tenant, row)
  }

  /** Owned, and holding each criterion that names a column. */
  function OwnedAndMatching(columns: set<string>, tenant: int, criteria: Columns): Row -> bool {
    (row: Row) => HasTenant(tenant, row) && Holds(columns, criteria, row)
  }

  predicate Holds(columns: set<string>, criteria: Columns, row: Row) {
    forall k :: k in criteria.Keys * columns ==> k in row.cols && row.cols[k] == criteria[k]
  }

  lemma {:induction false} OwnRows(rows: seq<Row>, tenant: int) returns (idx: seq<nat>)
    ensures IsSelection(rows, TenantQuery(rows, tenant), idx, OwnedBy(tenant))
  {
    idx := [];
    if rows != [] {
      var front, row := rows[..|rows| - 1], rows[|rows| - 1];
      assert rows == front + [row];
      idx := OwnRows(front, tenant);
      QueryAppend(front, row, tenant);
      SelectionAppend(front, TenantQuery(front, tenant), idx, OwnedBy(tenant), row);
      if Owns(tenant, row) {
        idx := idx + [|front|];
      } else {
        assert TenantQuery(rows, tenant) == TenantQuery(front, tenant);
      }
    }
  }

  lemma {:induction false} FilterConcat(columns: set<string>, a: seq<Row>, b: seq<Row>, criteria: Columns)
    ensures Filter(columns, a + b, criteria) == Filter(columns, a, criteria) + Filter(columns, b, criteria)
  {
    if a == [] {
      assert a + b == b;
    } else {
      assert (a + b)[1..] == a[1..] + b;
      FilterConcat(columns, a[1..], b, criteria);
    }
  }

  lemma MatchingAppend(columns: set<string>, rows: seq<Row>, row: Row, tenant: int, criteria: Columns)
    ensures Filter(columns, TenantQuery(rows + [row], tenant), criteria)
         == Filter(columns, TenantQuery(rows, tenant), criteria)
            + if OwnedAndMatching(columns, tenant, criteria)(row) then [row] else []
  {
    var own := TenantQuery(rows, tenant);
    QueryAppend(rows, row, tenant);
    FilterConcat(columns, own, if Owns(tenant, row) then [row] else [], criteria);
    MatchesIff(columns, criteria, row);
    assert Filter(columns, [row], criteria) == if Matches(columns, criteria, row) then [row] else [];
    assert Filter(columns, [], criteria) == [];
    assert OwnedAndMatching(columns, tenant, criteria)(row) <==> Owns(tenant, row) && Matches(columns, criteria, row);
  }

  lemma MatchesIff(columns: set<string>, criteria: Columns, row: Row)
    ensures Matches(columns, criteria, row) <==> Holds(columns, criteria, row)
  {
    forall k ensures k in criteria.Keys * columns <==> k in criteria && k in columns {
    }
  }

  lemma {:induction false} MatchingRows(columns: set<string>, rows: seq<Row>, tenant: int, criteria: Columns)
    returns (idx: seq<nat>)
    ensures IsSelection(rows, Filter(columns, TenantQuery(rows, tenant), criteria), idx,
                        OwnedAndMatching(columns, tenant, criteria))
  {
    idx := [];
    if rows != [] {
      var front, row := rows[..|rows| - 1], rows[|rows| - 1];
      var found, pass := Filter(columns, TenantQuery(front, tenant), criteria),
        OwnedAndMatching(columns, tenant, criteria);
      assert rows == front + [row];
      idx := MatchingRows(columns, front, tenant, criteria);
      MatchingAppend(columns, front, row, tenant, criteria);
      SelectionAppend(front, found, idx, pass, row);
      if pass(row) {
        idx := idx + [|front|];
      } else {
        assert found + [] == found;
      }
    }
  }

  /** `get_all` answers with the tenant's rows in table order, without the first
      `skip` and at most `limit` of them. */
  lemma GetAllAnswers(columns: set<string>, rows: seq<Row>, tenant: int, skip: int, limit: int)
    returns (own: seq<Row>, idx: seq<nat>)
    ensures IsSelection(rows, own, idx, OwnedBy(tenant))
    ensures skip < 0 || limit < 0 ==> Step(columns, rows, tenant, GetAll(skip, limit)) == (rows, DatabaseError)
    ensures skip >= 0 && limit >= 0 ==>
      Step(columns, rows, tenant, GetAll(skip, limit))
        == (rows, Rows(if skip > |own| then [] else if skip + limit > |own| then own[skip..]
                       else own[skip..skip + limit]))
  {
    own := TenantQuery(rows, tenant);
    idx := OwnRows(rows, tenant);
    if skip >= 0 && limit >= 0 {
      Pagination.SliceIs(own, skip, limit);
    }
  }

  /** `count` counts them, and `paginate` answers with one page of them. */
  lemma PaginateAnswers(columns: set<string>, rows: seq<Row>, tenant: int, page: int, size: int)
    returns (own: seq<Row>, idx: seq<nat>, from: nat)
    ensures IsSelection(rows, own, idx, OwnedBy(tenant))
    ensures Step(columns, rows, tenant, Count) == (rows, Total(|own|))
    ensures page < 1 || size < 1 || size > 100 ==>
      Step(columns, rows, tenant, Paginate(page, size)) == (rows, PaginationError)
    ensures page >= 1 && 1 <= size <= 100 ==>
      && from == page * size - size
      && Step(columns, rows, tenant, Paginate(page, size))
         == (rows, Page(Pagination.PaginatedResult(
              if from > |own| then [] else if from + size > |own| then own[from..] else own[from..from + size],
              |own|, page, size)))
  {
    own := TenantQuery(rows, tenant);
    idx := OwnRows(rows, tenant);
    from := 0;
    if page >= 1 && 1 <= size <= 100 {
      Pagination.OffsetOfPage(|own|, page, size);
      from := page * size - size;
      Pagination.SliceIs(own, from, size);
    }
  }

  /** `filter_by` answers with exactly the tenant's matching rows, in table
      order, and `first_by` with the first of them. */
  lemma FilterByAnswers(columns: set<string>, rows: seq<Row>, tenant: int, criteria: Columns)
    returns (found: seq<Row>, idx: seq<nat>)
    ensures IsSelection(rows, found, idx, OwnedAndMatching(columns, tenant, criteria))
    ensures Step(columns, rows, tenant, FilterBy(criteria)) == (rows, Rows(found))
    ensures Step(columns, rows, tenant, FirstBy(criteria))
         == (rows, Lookup(if |found| > 0 then Some(found[0]) else None))
  {
    found := Filter(columns, TenantQuery(rows, tenant), criteria);
    idx := MatchingRows(columns, rows, tenant, criteria);
  }

  /** `get` answers with the tenant's first row of this id, and `exists` tells
      whether there is one. */
  lemma {:induction false} GetAnswers(columns: set<string>, rows: seq<Row>, tenant: int, id: int)
    returns (found: Option<Row>)
    ensures Step(columns, rows, tenant, Get(id)) == (rows, Lookup(found))
    ensures Step(columns, rows, tenant, Exists(id)) == (rows, Flag(found.Some?))
    ensures found == None ==> forall i :: 0 <= i < |rows| ==> !(HasTenant(tenant, rows[i]) && rows[i].id == id)
    ensures found.Some? ==>
      exists i :: 0 <= i < |rows| && rows[i] == found.value && HasTenant(tenant, rows[i]) && rows[i].id == id
                  && forall j :: 0 <= j < i ==> !(HasTenant(tenant, rows[j]) && rows[j].id == id)
  {
    found := None;
    if rows != [] {
      if HasTenant(tenant, rows[0]) && rows[0].id == id {
        found := Some(rows[0]);
      } else {
        found := GetAnswers(columns, rows[1..], tenant, id);
        FindLater(rows, tenant, id, found);
      }
    }
  }

  lemma FindLater(rows: seq<Row>, tenant: int, id: int, found: Option<Row>)
    requires rows != [] && !(HasTenant(tenant, rows[0]) && rows[0].id == id)
    requires found == None ==> forall i :: 0 <= i < |rows[1..]| ==>
      !(HasTenant(tenant, rows[1..][i]) && rows[1..][i].id == id)
    requires found.Some? ==>
      exists i :: 0 <= i < |rows[1..]| && rows[1..][i] == found.value && HasTenant(tenant, rows[1..][i])
                  && rows[1..][i].id == id
                  && forall j :: 0 <= j < i ==> !(HasTenant(tenant, rows[1..][j]) && rows[1..][j].id == id)
    ensures found == None ==> forall i :: 0 <= i < |rows| ==> !(HasTenant(tenant, rows[i]) && rows[i].id == id)
    ensures found.Some? ==>
      exists i :: 0 <= i < |rows| && rows[i] == found.value && HasTenant(tenant, rows[i]) && rows[i].id == id
                  && forall j :: 0 <= j < i ==> !(HasTenant(tenant, rows[j]) && rows[j].id == id)
  {
    forall i | 0 < i < |rows| ensures rows[i] == rows[1..][i - 1] {
    }
    if found.Some? {
      var i :| 0 <= i < |rows[1..]| && rows[1..][i] == found.value && HasTenant(tenant, rows[1..][i])
               && rows[1..][i].id == id
               && forall j :: 0 <= j < i ==> !(HasTenant(tenant, rows[1..][j]) && rows[1..][j].id == id);
      assert rows[i + 1] == found.value;
    }
  }

  // --------------------------------------------------------------- read back

  /** An update of an id the tenant does not have changes nothing. */
  lemma UpdateOfNone(columns: set<string>, rows: seq<Row>, tenant: int, id: int, data: Columns)
    requires Find(rows, tenant, id).None?
    ensures Step(columns, rows, tenant, Update(id, data)) == (rows, Lookup(None))
  {
  }

  /** At most one row of the tenant has this id. */
  ghost predicate UniqueId(rows: seq<Row>, tenant: int, id: int) {
    rows == [] ||
    if Owns(tenant, rows[0]) && rows[0].id == id then Find(rows[1..], tenant, id).None?
    else UniqueId(rows[1..], tenant, id)
  }

  /** A create answers with the row it adds, whose other columns are null. The
      tenant finds it under its new id, holding the data given; it finds every
      other id as before, and counts one row more. Data with an unknown column
      are refused. */
  lemma CreateReadsBack(columns: set<string>, rows: seq<Row>, tenant: int, id: int, data: Columns, other: int)
    requires Find(rows, tenant, id).None?
    ensures !(data.Keys <= columns) ==> Step(columns, rows, tenant, Create(id, data)) == (rows, InvalidKeyword)
    ensures data.Keys <= columns ==>
      var after := Step(columns, rows, tenant, Create(id, data)).0;
      && Find(after, tenant, id).Some?
      && Step(columns, rows, tenant, Create(id, data)).1 == Lookup(Find(after, tenant, id))
      && (forall c :: c in columns && c !in data && c != "tenant_id" ==>
            c in Find(after, tenant, id).value.cols && Find(after, tenant, id).value.cols[c] == Null)
      && (forall c :: c in data && c != "tenant_id" ==>
            c in Find(after, tenant, id).value.cols && Find(after, tenant, id).value.cols[c] == data[c])
      && (other != id ==> Find(after, tenant, other) == Find(rows, tenant, other))
      && |TenantQuery(after, tenant)| == |TenantQuery(rows, tenant)| + 1
  {
    var row := NewRow(columns, tenant, id, data);
    FindAppend(rows, row, tenant, id);
    FindAppend(rows, row, tenant, other);
    QueryAppend(rows, row, tenant);
  }

  lemma {:induction false} FindAppend(rows: seq<Row>, row: Row, tenant: int, id: int)
    ensures Find(rows + [row], tenant, id)
         == if Find(rows, tenant, id).Some? then Find(rows, tenant, id)
            else if Owns(tenant, row) && row.id == id then Some(row) else None
  {
    if rows != [] {
      assert (rows + [row])[1..] == rows[1..] + [row];
      FindAppend(rows[1..], row, tenant, id);
    }
  }

  /** After an update the tenant finds the row, which is also the answer, with
      the new values in the known columns of `data` and the old ones elsewhere;
      other ids are as before. */
  lemma {:induction false} UpdateReadsBack(
    columns: set<string>, rows: seq<Row>, tenant: int, id: int, data: Columns, other: int)
    requires Find(rows, tenant, id).Some?
    ensures var (after, row) := (EditFirst(columns, rows, tenant, id, data), Find(rows, tenant, id).value);
      && Step(columns, rows, tenant, Update(id, data)) == (after, Lookup(Find(after, tenant, id)))
      && Find(after, tenant, id).Some?
      && (forall c :: c in Find(after, tenant, id).value.cols || c in row.cols ==>
            if c in data && c in columns && c != "tenant_id"
            then c in Find(after, tenant, id).value.cols && Find(after, tenant, id).value.cols[c] == data[c]
            else c in row.cols && c in Find(after, tenant, id).value.cols
                 && Find(after, tenant, id).value.cols[c] == row.cols[c])
      && (other != id ==> Find(after, tenant, other) == Find(rows, tenant, other))
      && |TenantQuery(after, tenant)| == |TenantQuery(rows, tenant)|
  {
    if !(Owns(tenant, rows[0]) && rows[0].id == id) {
      UpdateReadsBack(columns, rows[1..], tenant, id, data, other);
    }
  }

  /** After a delete the id is gone, other ids are found as before, and the
      count drops by one exactly if the delete answered true. */
  lemma {:induction false} DeleteReadsBack(columns: set<string>, rows: seq<Row>, tenant: int, id: int, other: int)
    requires UniqueId(rows, tenant, id)
    ensures var after := RemoveFirst(rows, tenant, id);
      && Step(columns, rows, tenant, Delete(id)) == (after, Flag(Find(rows, tenant, id).Some?))
      && Find(after, tenant, id).None?
      && (other != id ==> Find(after, tenant, other) == Find(rows, tenant, other))
      && |TenantQuery(after, tenant)| == |TenantQuery(rows, tenant)| - (if Find(rows, tenant, id).Some? then 1 else 0)
  {
    if rows != [] && !(Owns(tenant, rows[0]) && rows[0].id == id) {
      DeleteReadsBack(columns, rows[1..], tenant, id, other);
    }
  }

  // -------------------------------------------------------- non-interference

  datatype Request = Request(tenant: int, op: Op)

  function Run(columns: set<string>, rows: seq<Row>, reqs: seq<Request>): seq<Row>
    decreases reqs
  {
    if reqs == [] then rows
    else Run(columns, Step(columns, rows, reqs[0].tenant, reqs[0].op).0, reqs[1..])
  }

  /** What one tenant is told over a run, in order. */
  function AnswersTo(columns: set<string>, rows: seq<Row>, reqs: seq<Request>, tenant: int): seq<Answer>
    decreases reqs
  {
    if reqs == [] then [] else
      var (after, answer) := Step(columns, rows, reqs[0].tenant, reqs[0].op);
      (if reqs[0].tenant == tenant then [answer] else []) + AnswersTo(columns, after, reqs[1..], tenant)
  }

  /** The run with every other tenant's operations removed. */
  function Purge(reqs: seq<Request>, tenant: int): seq<Request> {
    if reqs == [] then [] else
      (if reqs[0].tenant == tenant then [reqs[0]] else []) + Purge(reqs[1..], tenant)
  }

  lemma {:induction false} QueryAppend(rows: seq<Row>, row: Row, tenant: int)
    ensures TenantQuery(rows + [row], tenant)
         == TenantQuery(rows, tenant) + if Owns(tenant, row) then [row] else []
  {
    if rows != [] {
      assert (rows + [row])[1..] == rows[1..] + [row];
      QueryAppend(rows[1..], row, tenant);
    }
  }

  lemma QueryHead(rows: seq<Row>, tenant: int)
    requires rows != []
    ensures Owns(tenant, rows[0]) ==>
      TenantQuery(rows, tenant) != [] && TenantQuery(rows, tenant)[0] == rows[0]
      && TenantQuery(rows, tenant)[1..] == TenantQuery(rows[1..], tenant)
    ensures !Owns(tenant, rows[0]) ==> TenantQuery(rows, tenant) == TenantQuery(rows[1..], tenant)
  {
  }

  lemma {:induction false} FindInQuery(rows: seq<Row>, tenant: int, id: int)
    ensures Find(rows, tenant, id) == Find(TenantQuery(rows, tenant), tenant, id)
  {
    if rows != [] {
      FindInQuery(rows[1..], tenant, id);
      QueryHead(rows, tenant);
    }
  }

  lemma {:induction false} EditInQuery(columns: set<string>, rows: seq<Row>, tenant: int, id: int, data: Columns)
    ensures TenantQuery(EditFirst(columns, rows, tenant, id, data), tenant)
         == EditFirst(columns, TenantQuery(rows, tenant), tenant, id, data)
  {
    if rows != [] {
      EditInQuery(columns, rows[1..], tenant, id, data);
      QueryHead(rows, tenant);
    }
  }

  lemma {:induction false} RemoveInQuery(rows: seq<Row>, tenant: int, id: int)
    ensures TenantQuery(RemoveFirst(rows, tenant, id), tenant) == RemoveFirst(TenantQuery(rows, tenant), tenant, id)
  {
    if rows != [] {
      RemoveInQuery(rows[1..], tenant, id);
      QueryHead(rows, tenant);
    }
  }

  /** A tenant's operation sees and changes nothing but that tenant's rows. */
  lemma StepOnOwnRows(columns: set<string>, a: seq<Row>, b: seq<Row>, tenant: int, op: Op)
    requires TenantQuery(a, tenant) == TenantQuery(b, tenant)
    ensures Step(columns, a, tenant, op).1 == Step(columns, b, tenant, op).1
    ensures TenantQuery(Step(columns, a, tenant, op).0, tenant) == TenantQuery(Step(columns, b, tenant, op).0, tenant)
  {
    match op
    case Get(id) => FindInQuery(a, tenant, id); FindInQuery(b, tenant, id);
    case Exists(id) => FindInQuery(a, tenant, id); FindInQuery(b, tenant, id);
    case Create(id, data) =>
      QueryAppend(a, NewRow(columns, tenant, id, data), tenant);
      QueryAppend(b, NewRow(columns, tenant, id, data), tenant);
    case Update(id, data) =>
      FindInQuery(a, tenant, id);
      FindInQuery(b, tenant, id);
      EditInQuery(columns, a, tenant, id, data);
      EditInQuery(columns, b, tenant, id, data);
    case Delete(id) =>
      FindInQuery(a, tenant, id);
      FindInQuery(b, tenant, id);
      RemoveInQuery(a, tenant, id);
      RemoveInQuery(b, tenant, id);
    case _ =>
  }

  lemma {:induction false} OthersEdit(
    columns: set<string>, rows: seq<Row>, tenant: int, other: int, id: int, data: Columns)
    requires tenant != other
    ensures TenantQuery(EditFirst(columns, rows, other, id, data), tenant) == TenantQuery(rows, tenant)
  {
    if rows != [] {
      OthersEdit(columns, rows[1..], tenant, other, id, data);
    }
  }

  lemma {:induction false} OthersRemove(rows: seq<Row>, tenant: int, other: int, id: int)
    requires tenant != other
    ensures TenantQuery(RemoveFirst(rows, other, id), tenant) == TenantQuery(rows, tenant)
  {
    if rows != [] {
      OthersRemove(rows[1..], tenant, other, id);
    }
  }

  /** No operation of one tenant adds, removes or alters a row of another. */
  lemma StepByOther(columns: set<string>, rows: seq<Row>, tenant: int, other: int, op: Op)
    requires tenant != other
    ensures TenantQuery(Step(columns, rows, other, op).0, tenant) == TenantQuery(rows, tenant)
  {
    match op
    case Create(id, data) => QueryAppend(rows, NewRow(columns, other, id, data), tenant);
    case Update(id, data) => OthersEdit(columns, rows, tenant, other, id, data);
    case Delete(id) => OthersRemove(rows, tenant, other, id);
    case _ =>
  }

  /** Isolation: whatever the other tenants do in between, a tenant's answers
      and rows are those of the run in which it is alone. `alone` may be any
      table that holds the same rows of this tenant, such as one holding no
      others. */
  lemma {:induction false} Noninterference(
      columns: set<string>, rows: seq<Row>, alone: seq<Row>, reqs: seq<Request>, tenant: int)
    requires TenantQuery(rows, tenant) == TenantQuery(alone, tenant)
    ensures AnswersTo(columns, rows, reqs, tenant) == AnswersTo(columns, alone, Purge(reqs, tenant), tenant)
    ensures TenantQuery(Run(columns, rows, reqs), tenant)
         == TenantQuery(Run(columns, alone, Purge(reqs, tenant)), tenant)
    decreases reqs
  {
    if reqs != [] {
      var r := reqs[0];
      var after := Step(columns, rows, r.tenant, r.op).0;
      if r.tenant == tenant {
        StepOnOwnRows(columns, rows, alone, tenant, r.op);
        Noninterference(columns, after, Step(columns, alone, tenant, r.op).0, reqs[1..], tenant);
        assert Purge(reqs, tenant)[0] == r && Purge(reqs, tenant)[1..] == Purge(reqs[1..], tenant);
      } else {
        StepByOther(columns, rows, tenant, r.tenant, r.op);
        Noninterference(columns, after, alone, reqs[1..], tenant);
        assert Purge(reqs, tenant) == Purge(reqs[1..], tenant);
      }
    }
  }

  /** The tenant a row belongs to, as an identity that must not move. */
  ghost predicate SameOwner(a: Row, b: Row) {
    a.id == b.id && forall t :: Owns(t, a) <==> Owns(t, b)
  }

  ghost predicate CreatedBy(reqs: seq<Request>, row: Row) {
    exists i :: 0 <= i < |reqs| && reqs[i].op.Create? && reqs[i].op.newId == row.id && Owns(reqs[i].tenant, row)
  }

  lemma {:induction false} EditKeepsOwners(columns: set<string>, rows: seq<Row>, tenant: int, id: int, data: Columns)
    ensures var after := EditFirst(columns, rows, tenant, id, data);
      |after| == |rows| && forall i :: 0 <= i < |rows| ==> SameOwner(rows[i], after[i])
  {
    if rows != [] {
      EditKeepsOwners(columns, rows[1..], tenant, id, data);
    }
  }

  lemma {:induction false} RemoveKeepsRows(rows: seq<Row>, tenant: int, id: int)
    ensures forall r :: r in RemoveFirst(rows, tenant, id) ==> r in rows
  {
    if rows != [] {
      RemoveKeepsRows(rows[1..], tenant, id);
    }
  }

  /** No run moves a row to another tenant: every row at the end has the owner
      it started with, or the one whose `create` made it. */
  lemma {:induction false} OwnersNeverChange(columns: set<string>, rows: seq<Row>, reqs: seq<Request>, row: Row)
    requires row in Run(columns, rows, reqs)
    ensures (exists r :: r in rows && SameOwner(r, row)) || CreatedBy(reqs, row)
    decreases reqs
  {
    if reqs == [] {
      assert SameOwner(row, row);
    } else {
      var after := Step(columns, rows, reqs[0].tenant, reqs[0].op).0;
      OwnersNeverChange(columns, after, reqs[1..], row);
      if CreatedBy(reqs[1..], row) {
        var i :| 0 <= i < |reqs[1..]| && reqs[1..][i].op.Create? && reqs[1..][i].op.newId == row.id
          && Owns(reqs[1..][i].tenant, row);
        assert reqs[i + 1] == reqs[1..][i];
      } else {
        var r :| r in after && SameOwner(r, row);
        StepOwners(columns, rows, reqs[0].tenant, reqs[0].op, r);
        if r0 :| r0 in rows && SameOwner(r0, r) {
          assert SameOwner(r0, row);
        } else {
          assert Owns(reqs[0].tenant, row);
        }
      }
    }
  }

  lemma StepOwners(columns: set<string>, rows: seq<Row>, tenant: int, op: Op, row: Row)
    requires row in Step(columns, rows, tenant, op).0
    ensures (exists r :: r in rows && SameOwner(r, row)) || (op.Create? && op.newId == row.id && Owns(tenant, row))
  {
    if row in rows {
      assert SameOwner(row, row);
    } else if op.Update? {
      EditKeepsOwners(columns, rows, tenant, op.id, op.data);
      var after := EditFirst(columns, rows, tenant, op.id, op.data);
      var i :| 0 <= i < |after| && after[i] == row;
      assert SameOwner(rows[i], row);
    } else if op.Delete? {
      RemoveKeepsRows(rows, tenant, op.id);
    }
  }
}
