/**
 * The floor areas (`/api/areas`), served by the Workers deployment only. An
 * area groups tables; its name is unique; managers create, edit and delete
 * areas, and an area that still holds tables cannot be deleted.
 */
module Areas {
  import opened Common
  import opened Schema
  import opened Sorting
  import opened Middleware

  datatype AreaError = Forbidden | MissingNome | DuplicateNome | AreaNotFound | HasTables

  function AreaStatusCode(e: AreaError): (code: int)
    ensures code == 403 <==> e == Forbidden
    ensures code == 404 <==> e == AreaNotFound
    ensures code in {400, 403, 404}
  {
    match e
    case Forbidden => 403
    case AreaNotFound => 404
    case _ => 400
  }

  /**
   * Another area already uses `nome` (the UNIQUE constraint), not counting the
   * area `self`. A NULL name never conflicts.
   */
  predicate NameTakenByOther(areas: map<int, Area>, nome: Option<string>, self: Option<int>) {
    nome.Some? && exists k :: k in areas && areas[k].nome == nome && Some(k) != self
  }

  /** The tables placed in an area. */
  function TablesIn(tables: map<int, Table>, id: int): set<int> {
    set k | k in tables && tables[k].area == Some(id)
  }

  /** `total_mesas`: the number of tables that point at the area; 0 exactly when none does. */
  function TableCount(tables: map<int, Table>, id: int): (n: nat)
    ensures n == 0 <==> forall k :: k in tables ==> tables[k].area != Some(id)
  {
    var s := TablesIn(tables, id);
    assert (forall k :: k in tables ==> tables[k].area != Some(id)) ==> s == {};
    assert forall k :: k in tables && tables[k].area == Some(id) ==> k in s;
    assert |s| == 0 ==> s == {};
    |s|
  }

  /** POST /api/areas: the role gate (403), a required `nome`, and a name in use refused (400). */
  method CreateArea(db: Database, actor: Option<Actor>, nome: Option<string>, descricao: Option<string>)
    returns (r: Result<int, AreaError>)
    requires db.Valid()
    modifies db`areas, db`nextArea
    ensures db.Valid()
    ensures r == Err(Forbidden) <==> !RoleAllowed(actor, Managers)
    ensures r == Err(MissingNome) <==> RoleAllowed(actor, Managers) && !TruthyStr(nome)
    ensures r == Err(DuplicateNome) <==>
      RoleAllowed(actor, Managers) && TruthyStr(nome) && NameTakenByOther(old(db.areas), nome, None)
    ensures r.Err? ==> unchanged(db)
    ensures r.Ok? ==>
      r.value == old(db.nextArea) && r.value !in old(db.areas)
      && db.areas == old(db.areas)[r.value := Area(nome, NullIfEmpty(descricao), Some(true))]
  {
    if RoleGate(Cloudflare, actor, Managers).Some? {
      return Err(Forbidden);
    }
    if !TruthyStr(nome) {
      return Err(MissingNome);
    }
    if NameTakenByOther(db.areas, nome, None) {
      return Err(DuplicateNome);
    }
    var id := db.nextArea;
    db.areas, db.nextArea := db.areas[id := Area(nome, NullIfEmpty(descricao), Some(true))], id + 1;
    return Ok(id);
  }

  /**
   * The row PUT /api/areas/:id writes: each field present in the body
   * replaces the stored one (one sent as null writes NULL), each field left
   * out is kept.
   */
  function MergedArea(current: Area, nome: Field<string>, descricao: Field<string>, ativo: Field<bool>): (a: Area)
    ensures nome.Undefined? && descricao.Undefined? && ativo.Undefined? ==> a == current
  {
    Area(if nome.Defined? then nome.value else current.nome,
         if descricao.Defined? then descricao.value else current.descricao,
         if ativo.Defined? then ativo.value else current.ativo)
  }

  /** Writing back the merged row and merging the same body again changes nothing more. */
  lemma MergedAreaIdempotent(current: Area, nome: Field<string>, descricao: Field<string>, ativo: Field<bool>)
    ensures MergedArea(MergedArea(current, nome, descricao, ativo), nome, descricao, ativo)
            == MergedArea(current, nome, descricao, ativo)
    ensures nome.Defined? ==> MergedArea(current, nome, descricao, ativo).nome == nome.value
    ensures nome.Undefined? ==> MergedArea(current, nome, descricao, ativo).nome == current.nome
    ensures descricao.Defined? ==> MergedArea(current, nome, descricao, ativo).descricao == descricao.value
    ensures descricao.Undefined? ==> MergedArea(current, nome, descricao, ativo).descricao == current.descricao
    ensures ativo.Defined? ==> MergedArea(current, nome, descricao, ativo).ativo == ativo.value
    ensures ativo.Undefined? ==> MergedArea(current, nome, descricao, ativo).ativo == current.ativo
  {
  }

  /**
   * PUT /api/areas/:id. The role gate, then 404 for an unknown area, then the
   * merged row is written unless its name belongs to another area (400).
   */
  method UpdateArea(db: Database, actor: Option<Actor>, id: int, nome: Field<string>, descricao: Field<string>,
                    ativo: Field<bool>)
    returns (r: Result<Area, AreaError>)
    requires db.Valid()
    modifies db`areas
    ensures db.Valid()
    ensures r == Err(Forbidden) <==> !RoleAllowed(actor, Managers)
    ensures r == Err(AreaNotFound) <==> RoleAllowed(actor, Managers) && id !in old(db.areas)
    ensures r == Err(DuplicateNome) <==>
      RoleAllowed(actor, Managers) && id in old(db.areas)
      && NameTakenByOther(old(db.areas), MergedArea(old(db.areas)[id], nome, descricao, ativo).nome, Some(id))
    ensures r.Err? ==> unchanged(db)
    ensures r.Ok? ==>
      id in old(db.areas) && r.value == MergedArea(old(db.areas)[id], nome, descricao, ativo)
      && db.areas == old(db.areas)[id := r.value]
  {
    if RoleGate(Cloudflare, actor, Managers).Some? {
      return Err(Forbidden);
    }
    if id !in db.areas {
      return Err(AreaNotFound);
    }
    var a := MergedArea(db.areas[id], nome, descricao, ativo);
    if NameTakenByOther(db.areas, a.nome, Some(id)) {
      return Err(DuplicateNome);
    }
    db.areas := db.areas[id := a];
    return Ok(a);
  }

  /**
   * DELETE /api/areas/:id. The role gate, then an area that any table points
   * at is kept (400); only then is an unknown area reported (404). The row is
   * deleted, not deactivated.
   */
  method DeleteArea(db: Database, actor: Option<Actor>, id: int) returns (r: Result<Area, AreaError>)
    requires db.Valid()
    modifies db`areas
    ensures db.Valid()
    ensures r == Err(Forbidden) <==> !RoleAllowed(actor, Managers)
    ensures r == Err(HasTables) <==> RoleAllowed(actor, Managers) && TableCount(db.tables, id) > 0
    ensures r == Err(AreaNotFound) <==>
      RoleAllowed(actor, Managers) && TableCount(db.tables, id) == 0 && id !in old(db.areas)
    ensures r.Err? ==> unchanged(db)
    ensures r.Ok? ==> id in old(db.areas) && r.value == old(db.areas)[id] && db.areas == old(db.areas) - {id}
    ensures r.Ok? ==> forall k :: k in db.tables ==> db.tables[k].area != Some(id)
  {
    if RoleGate(Cloudflare, actor, Managers).Some? {
      return Err(Forbidden);
    }
    if TableCount(db.tables, id) > 0 {
      return Err(HasTables);
    }
    if id !in db.areas {
      return Err(AreaNotFound);
    }
    var a := db.areas[id];
    db.areas := db.areas - {id};
    return Ok(a);
  }

  // ---------------------------------------------------------------- reading

  /** Text order on SQLite: NULL before every value, then code-point order. */
  predicate NullFirstLe(x: Option<string>, y: Option<string>) {
    x.None? || (y.Some? && StrLe(x.value, y.value))
  }

  /** `ORDER BY nome`. */
  predicate AreaNameLe(a: (int, Area), b: (int, Area)) {
    NullFirstLe(a.1.nome, b.1.nome)
  }

  lemma AreaNameLeTotal()
    ensures TotalPreorder(AreaNameLe)
  {
    forall a: (int, Area), b: (int, Area) ensures AreaNameLe(a, b) || AreaNameLe(b, a) {
      if a.1.nome.Some? && b.1.nome.Some? {
        StrLeTotal(a.1.nome.value, b.1.nome.value);
      }
    }
    forall a: (int, Area), b: (int, Area), c: (int, Area) | AreaNameLe(a, b) && AreaNameLe(b, c)
      ensures AreaNameLe(a, c)
    {
      if a.1.nome.Some? {
        StrLeTrans(a.1.nome.value, b.1.nome.value, c.1.nome.value);
      }
    }
  }

  /** `WHERE a.ativo = 1`: a NULL or false flag hides the area. */
  predicate ActiveArea(row: (int, Area)) { row.1.ativo == Some(true) }

  /** A row of GET /api/areas: the area and its `total_mesas`. */
  datatype AreaSummary = AreaSummary(id: int, area: Area, totalMesas: nat)

  /** GET /api/areas: the active areas by name, each with its table count. */
  function AreaList(rows: seq<(int, Area)>, tables: map<int, Table>): (r: seq<AreaSummary>)
    ensures |r| == |SortBy(Where(rows, ActiveArea), AreaNameLe)|
  {
    var sorted := SortBy(Where(rows, ActiveArea), AreaNameLe);
    seq(|sorted|, i requires 0 <= i < |sorted| => AreaSummary(sorted[i].0, sorted[i].1, TableCount(tables, sorted[i].0)))
  }

  /**
   * The list holds exactly the active areas, each with the number of tables
   * that point at it, in name order.
   */
  lemma AreaListSpec(rows: seq<(int, Area)>, tables: map<int, Table>)
    ensures forall i :: 0 <= i < |AreaList(rows, tables)| ==>
      var s := AreaList(rows, tables)[i];
      (s.id, s.area) in rows && s.area.ativo == Some(true) && s.totalMesas == TableCount(tables, s.id)
    ensures forall row :: row in rows && row.1.ativo == Some(true) ==>
      exists i :: 0 <= i < |AreaList(rows, tables)| && AreaList(rows, tables)[i].id == row.0
                  && AreaList(rows, tables)[i].area == row.1
    ensures forall i, j :: 0 <= i < j < |AreaList(rows, tables)| ==>
      NullFirstLe(AreaList(rows, tables)[i].area.nome, AreaList(rows, tables)[j].area.nome)
  {
    AreaNameLeTotal();
    SelectSpec(rows, ActiveArea, AreaNameLe);
    var sorted := SortBy(Where(rows, ActiveArea), AreaNameLe);
    var list := AreaList(rows, tables);
    forall i | 0 <= i < |list| ensures (list[i].id, list[i].area) in rows && list[i].area.ativo == Some(true) {
      assert sorted[i] in sorted;
    }
    forall row | row in rows && row.1.ativo == Some(true)
      ensures exists i :: 0 <= i < |list| && list[i].id == row.0 && list[i].area == row.1
    {
      var i :| 0 <= i < |sorted| && sorted[i] == row;
      assert list[i].id == row.0;
    }
  }

  /** `ORDER BY LENGTH(numero), numero`. */
  predicate NumeroLe(a: (int, Table), b: (int, Table)) {
    KeyThenStrLe(|a.1.numero|, a.1.numero, |b.1.numero|, b.1.numero)
  }

  lemma NumeroLeTotal()
    ensures TotalPreorder(NumeroLe)
  {
    forall a: (int, Table), b: (int, Table) ensures NumeroLe(a, b) || NumeroLe(b, a) {
      KeyThenStrLeTotal(|a.1.numero|, a.1.numero, |b.1.numero|, b.1.numero);
    }
    forall a: (int, Table), b: (int, Table), c: (int, Table) | NumeroLe(a, b) && NumeroLe(b, c)
      ensures NumeroLe(a, c)
    {
      KeyThenStrLeTrans(|a.1.numero|, a.1.numero, |b.1.numero|, b.1.numero, |c.1.numero|, c.1.numero);
    }
  }

  /** GET /api/areas/:id: the area (active or not) and its tables, by number. */
  function GetArea(areas: map<int, Area>, tableRows: seq<(int, Table)>, id: int)
    : (r: Result<(Area, seq<(int, Table)>), AreaError>)
    ensures r.Ok? <==> id in areas
    ensures r.Err? ==> r.error == AreaNotFound
    ensures r.Ok? ==> r.value.0 == areas[id]
  {
    if id !in areas then Err(AreaNotFound)
    else Ok((areas[id], SortBy(Where(tableRows, (row: (int, Table)) => row.1.area == Some(id)), NumeroLe)))
  }

  /** The tables shown are exactly the area's, shorter numbers first. */
  lemma GetAreaSpec(areas: map<int, Area>, tableRows: seq<(int, Table)>, id: int)
    requires id in areas
    ensures var mesas := GetArea(areas, tableRows, id).value.1;
      && (forall row :: row in mesas <==> row in tableRows && row.1.area == Some(id))
      && SortedBy(mesas, NumeroLe)
  {
    NumeroLeTotal();
    SelectSpec(tableRows, (row: (int, Table)) => row.1.area == Some(id), NumeroLe);
  }
}
