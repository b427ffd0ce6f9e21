/**
 * The catalog database as the routers see it: the magazine table
 * ("revistas"), the two association tables that tie magazines to a
 * delivery document or to a return slip, the return slips themselves
 * ("chamadasdevolucao") and the delivery documents ("documentos_entrega").
 *
 * The hosted database is replaced by in-memory tables held by a `Store`
 * object; every call a router makes may fail, and whether it does is
 * decided by the caller (a flag per call), so every run is deterministic.
 */
module Catalog {
  import opened Wrappers
  import opened PyText
  import opened PyJson

  /** A calendar day, as a day number. */
  type Date = int

  /** A catalog row. Prices and the cover image are not modelled. */
  datatype Revista = Revista(
    id: nat,
    nome: string,
    apelido: Option<string>,
    edicao: Option<int>,
    codigoBarras: Option<string>,
    estoque: int)

  /** A row of "revistas_documentos_entrega". */
  datatype EntregaLink = EntregaLink(documento: nat, revista: nat, qtdEntregue: int)

  /** A row of "revistas_chamadasdevolucao"; the quantities are stored as received. */
  datatype DevolucaoLink = DevolucaoLink(
    chamada: nat,
    revista: nat,
    dataRecebimento: Value,
    qtdRecebida: Value,
    qtdADevolver: Value)

  datatype Status = Aberta | Fechada

  /** A return slip. */
  datatype Chamada = Chamada(id: nat, usuario: string, dataLimite: Date, status: Status)

  /** A delivery document. */
  datatype Documento = Documento(id: nat, usuario: string, dataEntrega: Date)

  datatype Tables = Tables(
    revistas: seq<Revista>,
    entregaLinks: seq<EntregaLink>,
    devolucaoLinks: seq<DevolucaoLink>,
    chamadas: seq<Chamada>,
    documentos: seq<Documento>,
    nextId: nat)

  /** The kinds of store call a reconciliation makes for one item. */
  datatype Call = Update | Insert | Select | Link

  /** An HTTP error status raised to the client. */
  datatype HttpError = Http(code: nat)

  /** A similarity score between two names, as rapidfuzz's `token_sort_ratio` gives it. */
  type Score = x: int | 0 <= x <= 100

  /** The result of a reconciliation: its two counters or an HTTP error, and the tables after it. */
  datatype Outcome = Outcome(counts: Result<(nat, nat), HttpError>, t: Tables)

  /** Magazine ids are positive, strictly increasing in table order, and below the id generator. */
  predicate IdsIncreasing(rows: seq<Revista>, bound: nat) {
    (forall i :: 0 <= i < |rows| ==> 1 <= rows[i].id < bound) &&
    (forall i, j :: 0 <= i < j < |rows| ==> rows[i].id < rows[j].id)
  }

  /** Increasing ids are unique: a row is determined by its id. */
  lemma IdsUnique(rows: seq<Revista>, bound: nat)
    requires IdsIncreasing(rows, bound)
    ensures forall i, j :: 0 <= i < |rows| && 0 <= j < |rows| && rows[i].id == rows[j].id ==> i == j
  {
    forall i, j | 0 <= i < |rows| && 0 <= j < |rows| && rows[i].id == rows[j].id
      ensures i == j
    {
      if i < j || j < i {
        assert false;
      }
    }
  }

  predicate ValidTables(t: Tables) {
    t.nextId >= 1 &&
    IdsIncreasing(t.revistas, t.nextId) &&
    (forall i :: 0 <= i < |t.chamadas| ==> 1 <= t.chamadas[i].id < t.nextId) &&
    (forall i :: 0 <= i < |t.documentos| ==> 1 <= t.documentos[i].id < t.nextId)
  }

  predicate HasRevista(t: Tables, id: nat) {
    exists i :: 0 <= i < |t.revistas| && t.revistas[i].id == id
  }

  /** `update({"qtd_estoque": s}).eq("id_revista", id)` */
  function SetStock(rows: seq<Revista>, id: nat, s: int): (r: seq<Revista>)
    ensures |r| == |rows|
    ensures forall i :: 0 <= i < |rows| ==> r[i] == if rows[i].id == id then rows[i].(estoque := s) else rows[i]
  {
    seq(|rows|, i requires 0 <= i < |rows| => if rows[i].id == id then rows[i].(estoque := s) else rows[i])
  }

  /** A stock update keeps every row's identity and the id order. */
  lemma SetStockKeepsIds(rows: seq<Revista>, id: nat, s: int, bound: nat)
    requires IdsIncreasing(rows, bound)
    ensures IdsIncreasing(SetStock(rows, id, s), bound)
  {
  }

  /** The rows of `before` with the stocks found at the same positions in `after`. */
  function WithStocks(before: seq<Revista>, after: seq<Revista>): (r: seq<Revista>)
    requires |after| >= |before|
    ensures |r| == |before|
    ensures forall i :: 0 <= i < |before| ==> r[i] == before[i].(estoque := after[i].estoque)
  {
    seq(|before|, i requires 0 <= i < |before| => before[i].(estoque := after[i].estoque))
  }

  /** An insert: the row gets the next id. */
  function AddRevista(t: Tables, nome: string, edicao: Option<int>, codigo: Option<string>, estoque: int): (r: Tables)
    ensures ValidTables(t) ==> ValidTables(r)
    ensures r.revistas == t.revistas + [Revista(t.nextId, nome, None, edicao, codigo, estoque)]
    ensures r.nextId == t.nextId + 1
    ensures r.entregaLinks == t.entregaLinks && r.devolucaoLinks == t.devolucaoLinks
    ensures r.chamadas == t.chamadas && r.documentos == t.documentos
  {
    t.(revistas := t.revistas + [Revista(t.nextId, nome, None, edicao, codigo, estoque)], nextId := t.nextId + 1)
  }

  /** The tables once a delivery document row is inserted: it gets the next id. */
  function WithDocumento(t: Tables, user: string, date: Date): Tables {
    t.(documentos := t.documentos + [Documento(t.nextId, user, date)], nextId := t.nextId + 1)
  }

  /** Some row already carries this barcode (the barcode column is unique). */
  predicate BarcodeTaken(rows: seq<Revista>, code: string) {
    exists i :: 0 <= i < |rows| && rows[i].codigoBarras == Some(code)
  }

  /** `select("id_revista").eq("codigo_barras", code)`, first row. */
  function FirstWithBarcode(rows: seq<Revista>, code: string): (r: Option<nat>)
    ensures r.Some? <==> BarcodeTaken(rows, code)
    ensures r.Some? ==> r.value < |rows| && rows[r.value].codigoBarras == Some(code)
    ensures r.Some? ==> forall j :: 0 <= j < r.value ==> rows[j].codigoBarras != Some(code)
  {
    if rows == [] then None
    else if rows[0].codigoBarras == Some(code) then Some(0)
    else match FirstWithBarcode(rows[1..], code)
      case None => None
      case Some(j) => Some(j + 1)
  }

  // ---------------------------------------------------------------------
  // The keyed lookup of the exact-key reconciliations
  // ---------------------------------------------------------------------

  /**
   * An edition as the lookup keys see it. The routers key on
   * `str(edition)`; since `str` is one-to-one on integers and "None" is
   * no integer's text, keying on the integer (or on the null marker) is
   * the same (see `TagMatchesText`).
   */
  datatype Tag = Num(n: int) | NoneText

  /** (name stripped and lower-cased, edition) */
  datatype Key = Key(nome: string, edicao: Tag)

  /** The lookup agrees with the table: each entry names a row and carries that row's stock. */
  predicate LookupAgrees(m: map<Key, Known>, rows: seq<Revista>) {
    forall k :: k in m ==> exists i :: 0 <= i < |rows| && rows[i].id == m[k].id && rows[i].estoque == m[k].estoque
  }

  /** What the lookup remembers of a row: its id and its stock. */
  datatype Known = Known(id: nat, estoque: int)

  /** `str(edition)`, with `nullText` standing for a null edition. */
  function EditionText(e: Option<int>, nullText: string): string {
    match e
    case None => nullText
    case Some(n) => IntToString(n)
  }

  /** A row's edition tag; `nullAsZero` says whether a null edition is keyed as "0". */
  function EditionTag(e: Option<int>, nullAsZero: bool): Tag {
    match e
    case None => if nullAsZero then Num(0) else NoneText
    case Some(n) => Num(n)
  }

  /** `str(int)` never reads "None". */
  lemma IntTextIsNotNone(n: int)
    ensures IntToString(n) != "None"
  {
    var s := IntToString(n);
    if n < 0 {
      assert s[0] == '-';
    } else {
      assert IsDigit(s[0]);
    }
  }

  /** Keying on tags agrees with keying on `str(edition)` against an incoming `str(int(...))`. */
  lemma TagMatchesText(e: Option<int>, nullAsZero: bool, n: int)
    ensures EditionTag(e, nullAsZero) == Num(n) <==> EditionText(e, if nullAsZero then "0" else "None") == IntToString(n)
  {
    IntToStringRoundTrip(n);
    match e
    case None =>
      if nullAsZero {
        assert IntToString(0) == "0";
        IntToStringRoundTrip(0);
      } else {
        IntTextIsNotNone(n);
      }
    case Some(m) =>
      IntToStringRoundTrip(m);
  }

  function NameKey(nome: string): string {
    Lower(Strip(nome))
  }

  function RowKey(r: Revista, nullAsZero: bool): Key {
    Key(NameKey(r.nome), EditionTag(r.edicao, nullAsZero))
  }

  /** Rows with a blank name are left out of the lookup (lower-casing keeps the length). */
  predicate Keyed(r: Revista) {
    Strip(r.nome) != ""
  }

  /** A dictionary filled entry by entry: a later entry with the same key replaces an earlier one. */
  function Index<K(==), V>(es: seq<Option<(K, V)>>): map<K, V> {
    if es == [] then map[]
    else
      var n := |es| - 1;
      var m := Index(es[..n]);
      match es[n]
      case None => m
      case Some(e) => m[e.0 := e.1]
  }

  lemma {:induction false} IndexSound<K, V>(es: seq<Option<(K, V)>>, k: K)
    requires k in Index(es)
    ensures exists i :: 0 <= i < |es| && es[i] == Some((k, Index(es)[k]))
    decreases |es|
  {
    var n := |es| - 1;
    if es[n].None? || es[n].value.0 != k {
      var front := es[..n];
      IndexSound(front, k);
      var i :| 0 <= i < |front| && front[i] == Some((k, Index(front)[k]));
      assert es[i] == front[i];
    } else {
      assert es[n] == Some((k, Index(es)[k]));
    }
  }

  lemma {:induction false} IndexLastWins<K, V>(es: seq<Option<(K, V)>>, i: nat)
    requires i < |es| && es[i].Some?
    requires forall j :: i < j < |es| && es[j].Some? ==> es[j].value.0 != es[i].value.0
    ensures es[i].value.0 in Index(es)
    ensures Index(es)[es[i].value.0] == es[i].value.1
    decreases |es|
  {
    var n := |es| - 1;
    if i < n {
      var front := es[..n];
      assert front[i] == es[i];
      forall j | i < j < |front| && front[j].Some?
        ensures front[j].value.0 != front[i].value.0
      {
        assert front[j] == es[j];
      }
      IndexLastWins(front, i);
    }
  }

  /** What the lookup-building loop records for one catalog row. */
  function Entry(r: Revista, nullAsZero: bool): Option<(Key, Known)> {
    if Keyed(r) then Some((RowKey(r, nullAsZero), Known(r.id, r.estoque))) else None
  }

  function Entries(rows: seq<Revista>, nullAsZero: bool): (es: seq<Option<(Key, Known)>>)
    ensures |es| == |rows|
  {
    seq(|rows|, i requires 0 <= i < |rows| => Entry(rows[i], nullAsZero))
  }

  /**
   * The lookup built from a catalog snapshot: row by row, so a later row
   * with the same key replaces an earlier one.
   */
  function BuildLookup(rows: seq<Revista>, nullAsZero: bool): map<Key, Known> {
    Index(Entries(rows, nullAsZero))
  }

  /** Every entry of the lookup comes from a row with a name and that key. */
  lemma LookupSound(rows: seq<Revista>, nullAsZero: bool, k: Key)
    requires k in BuildLookup(rows, nullAsZero)
    ensures exists i :: (0 <= i < |rows| && Keyed(rows[i]) && RowKey(rows[i], nullAsZero) == k &&
      BuildLookup(rows, nullAsZero)[k] == Known(rows[i].id, rows[i].estoque))
  {
    var es := Entries(rows, nullAsZero);
    IndexSound(es, k);
    var i :| 0 <= i < |es| && es[i] == Some((k, Index(es)[k]));
    assert es[i] == Entry(rows[i], nullAsZero);
  }

  /** Every row with a name is reachable through its key, and the last row with a key wins. */
  lemma LookupLastWins(rows: seq<Revista>, nullAsZero: bool, i: nat)
    requires i < |rows| && Keyed(rows[i])
    requires forall j :: i < j < |rows| && Keyed(rows[j]) ==> RowKey(rows[j], nullAsZero) != RowKey(rows[i], nullAsZero)
    ensures RowKey(rows[i], nullAsZero) in BuildLookup(rows, nullAsZero)
    ensures BuildLookup(rows, nullAsZero)[RowKey(rows[i], nullAsZero)] == Known(rows[i].id, rows[i].estoque)
  {
    var es := Entries(rows, nullAsZero);
    assert es[i] == Entry(rows[i], nullAsZero);
    forall j | i < j < |es| && es[j].Some?
      ensures es[j].value.0 != es[i].value.0
    {
      assert es[j] == Entry(rows[j], nullAsZero);
    }
    IndexLastWins(es, i);
  }

  /** The lookup-building loop of the exact-key reconciliations. */
  method LoadLookup(rows: seq<Revista>, nullAsZero: bool) returns (m: map<Key, Known>)
    ensures m == BuildLookup(rows, nullAsZero)
  {
    ghost var es := Entries(rows, nullAsZero);
    m := map[];
    var i := 0;
    while i < |rows|
      invariant 0 <= i <= |rows|
      invariant m == Index(es[..i])
    {
      assert es[..i + 1][..i] == es[..i];
      var e := Entry(rows[i], nullAsZero);
      assert es[i] == e;
      if e.Some? {
        m := m[e.value.0 := e.value.1];
      }
      i := i + 1;
    }
    assert es[..i] == es;
  }

  // ---------------------------------------------------------------------
  // The store
  // ---------------------------------------------------------------------

  /** `update({"status": "fechada"}).eq("id_chamada_devolucao", id).eq("id_usuario", user)` */
  function CloseOwned(rows: seq<Chamada>, id: nat, user: string): (r: seq<Chamada>)
    ensures |r| == |rows|
    ensures forall i :: 0 <= i < |rows| ==> r[i] == if rows[i].id == id && rows[i].usuario == user then rows[i].(status := Fechada) else rows[i]
  {
    seq(|rows|, i requires 0 <= i < |rows| => if rows[i].id == id && rows[i].usuario == user then rows[i].(status := Fechada) else rows[i])
  }

  predicate Owns(rows: seq<Chamada>, id: nat, user: string) {
    exists i :: 0 <= i < |rows| && rows[i].id == id && rows[i].usuario == user
  }

  /** The answer of a store call that may fail. */
  datatype Reply<T> = Reply(data: T) | Failure

  /** The outcome of inserting a magazine row. */
  datatype InsertResult = Inserted(id: nat) | UniqueViolation | InsertFailed

  /**
   * The database behind the service-role client. Each method is one
   * call; `failed` says whether the call raises.
   */
  class Store {
    var revistas: seq<Revista>
    var entregaLinks: seq<EntregaLink>
    var devolucaoLinks: seq<DevolucaoLink>
    var chamadas: seq<Chamada>
    var documentos: seq<Documento>
    var nextId: nat

    function State(): Tables
      reads this
    {
      Tables(revistas, entregaLinks, devolucaoLinks, chamadas, documentos, nextId)
    }

    predicate Valid()
      reads this
    {
      ValidTables(State())
    }

    constructor (t: Tables)
      requires ValidTables(t)
      ensures Valid() && State() == t
    {
      revistas := t.revistas;
      entregaLinks := t.entregaLinks;
      devolucaoLinks := t.devolucaoLinks;
      chamadas := t.chamadas;
      documentos := t.documentos;
      nextId := t.nextId;
    }

    /** Set the stock of the row with this id. */
    method UpdateStock(id: nat, s: int, failed: bool) returns (ok: bool)
      requires Valid()
      modifies this
      ensures Valid()
      ensures ok == !failed
      ensures State() == if failed then old(State()) else old(State()).(revistas := SetStock(old(revistas), id, s))
    {
      if failed {
        return false;
      }
      revistas := SetStock(revistas, id, s);
      return true;
    }

    /**
     * Insert a magazine row. A non-null barcode that is already taken
     * violates the unique constraint, whatever `failed` says.
     */
    method InsertRevista(nome: string, edicao: Option<int>, codigo: Option<string>, estoque: int, failed: bool) returns (r: InsertResult)
      requires Valid()
      modifies this
      ensures Valid()
      ensures codigo.Some? && BarcodeTaken(old(revistas), codigo.value) ==> r == UniqueViolation && State() == old(State())
      ensures !(codigo.Some? && BarcodeTaken(old(revistas), codigo.value)) && failed ==> r == InsertFailed && State() == old(State())
      ensures !(codigo.Some? && BarcodeTaken(old(revistas), codigo.value)) && !failed ==>
        r == Inserted(old(nextId)) && State() == AddRevista(old(State()), nome, edicao, codigo, estoque)
    {
      if codigo.Some? && BarcodeTaken(revistas, codigo.value) {
        return UniqueViolation;
      }
      if failed {
        return InsertFailed;
      }
      r := Inserted(nextId);
      revistas := revistas + [Revista(nextId, nome, None, edicao, codigo, estoque)];
      nextId := nextId + 1;
    }

    /** `pegar_revistas`: every magazine row, in table order. */
    method SelectRevistas(failed: bool) returns (r: Reply<seq<Revista>>)
      ensures failed ==> r == Failure
      ensures !failed ==> r == Reply(revistas)
    {
      if failed {
        return Failure;
      }
      return Reply(revistas);
    }

    /** The id of the first row with this barcode, if any. */
    method SelectByBarcode(code: string, failed: bool) returns (r: Reply<Option<nat>>)
      ensures failed ==> r == Failure
      ensures !failed ==> r == Reply(match FirstWithBarcode(revistas, code) case None => None case Some(i) => Some(revistas[i].id))
    {
      if failed {
        return Failure;
      }
      var i := FirstWithBarcode(revistas, code);
      if i.Some? {
        return Reply(Some(revistas[i.value].id));
      }
      return Reply(None);
    }

    method InsertEntregaLink(l: EntregaLink, failed: bool) returns (ok: bool)
      requires Valid()
      modifies this
      ensures Valid()
      ensures ok == !failed
      ensures State() == if failed then old(State()) else old(State()).(entregaLinks := old(entregaLinks) + [l])
    {
      if failed {
        return false;
      }
      entregaLinks := entregaLinks + [l];
      return true;
    }

    method InsertDevolucaoLink(l: DevolucaoLink, failed: bool) returns (ok: bool)
      requires Valid()
      modifies this
      ensures Valid()
      ensures ok == !failed
      ensures State() == if failed then old(State()) else old(State()).(devolucaoLinks := old(devolucaoLinks) + [l])
    {
      if failed {
        return false;
      }
      devolucaoLinks := devolucaoLinks + [l];
      return true;
    }

    /** Does the user already have a return slip with this deadline? */
    method ExistsChamada(user: string, dataLimite: Date, failed: bool) returns (r: Reply<bool>)
      ensures failed ==> r == Failure
      ensures !failed ==> r == Reply(exists i :: 0 <= i < |chamadas| && chamadas[i].usuario == user && chamadas[i].dataLimite == dataLimite)
    {
      if failed {
        return Failure;
      }
      return Reply(exists i :: 0 <= i < |chamadas| && chamadas[i].usuario == user && chamadas[i].dataLimite == dataLimite);
    }

    method InsertChamada(user: string, dataLimite: Date, failed: bool) returns (r: Reply<nat>)
      requires Valid()
      modifies this
      ensures Valid()
      ensures failed ==> r == Failure && State() == old(State())
      ensures !failed ==> r == Reply(old(nextId))
      ensures !failed ==> State() == old(State()).(chamadas := old(chamadas) + [Chamada(old(nextId), user, dataLimite, Aberta)], nextId := old(nextId) + 1)
    {
      if failed {
        return Failure;
      }
      r := Reply(nextId);
      chamadas := chamadas + [Chamada(nextId, user, dataLimite, Aberta)];
      nextId := nextId + 1;
    }

    method InsertDocumento(user: string, dataEntrega: Date, failed: bool) returns (r: Reply<nat>)
      requires Valid()
      modifies this
      ensures Valid()
      ensures failed ==> r == Failure && State() == old(State())
      ensures !failed ==> r == Reply(old(nextId))
      ensures !failed ==> State() == old(State()).(documentos := old(documentos) + [Documento(old(nextId), user, dataEntrega)], nextId := old(nextId) + 1)
    {
      if failed {
        return Failure;
      }
      r := Reply(nextId);
      documentos := documentos + [Documento(nextId, user, dataEntrega)];
      nextId := nextId + 1;
    }

    /** Close the user's return slip with this id; the reply says whether a row matched. */
    method CloseChamada(id: nat, user: string, failed: bool) returns (r: Reply<bool>)
      requires Valid()
      modifies this
      ensures Valid()
      ensures failed ==> r == Failure && State() == old(State())
      ensures !failed ==> r == Reply(Owns(old(chamadas), id, user))
      ensures !failed ==> State() == old(State()).(chamadas := CloseOwned(old(chamadas), id, user))
    {
      if failed {
        return Failure;
      }
      r := Reply(Owns(chamadas, id, user));
      chamadas := CloseOwned(chamadas, id, user);
    }
  }
}
