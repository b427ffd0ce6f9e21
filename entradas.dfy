/**
 * Delivery reconciliation, exact-key variant: every line item of a
 * delivery note either adds its quantity to the stock of the catalog row
 * with the same (name, edition) key, or creates a row; each item that
 * resolves to a row gets one association row with the delivered quantity.
 * Store failures are logged and the loop moves on.
 */
module Entradas {
  import opened Wrappers
  import opened PyText
  import opened PyJson
  import opened Catalog

  /** How one element of the "revistas" list is read before the lookup. */
  datatype Item =
    | Crash                                             // not an object, or an OverflowError: the loop raises
    | Skip                                              // blank name, or a value that does not convert
    | Ready(nome: string, key: Key, edicao: int, qtd: nat)

  /** A ready item is keyed by its own name and edition. */
  predicate WellKeyed(it: Item) {
    it.Ready? ==> it.key == Key(NameKey(it.nome), Num(it.edicao))
  }

  /**
   * `int()` raises OverflowError, which the loop does not catch: on the
   * edition, or, once the edition has been read, on the quantity.
   */
  predicate Overflows(f: seq<Field>) {
    var ev := GetOr(f, "numero_edicao", Null);
    || IntOverflows(ev)
    || ((ev == Null || PyInt(ev).Some?) && IntOverflows(GetOr(f, "qtd_estoque", Null)))
  }

  /**
   * The name is `str(item.get("nome", ""))` stripped; a null edition is
   * edition 0; the quantity is clamped at 0; the cover price must read
   * as a float (its value is not kept). The name is checked first, then
   * the edition, the quantity and the price, in that order.
   */
  function ReadItem(f: seq<Field>): (r: Item)
    ensures WellKeyed(r)
    ensures r.Crash? <==> Strip(PyStr(GetOr(f, "nome", Str("")))) != "" && Overflows(f)
    ensures r.Skip? <==>
      || Strip(PyStr(GetOr(f, "nome", Str("")))) == ""
      || (&& !Overflows(f)
          && (|| (!IsNoneAt(f, "numero_edicao") && PyInt(GetOr(f, "numero_edicao", Null)).None?)
              || IntOrZero(GetOr(f, "qtd_estoque", Null)).None?
              || !PriceParses(GetOr(f, "preco_capa", Str("0.0")))))
    ensures r.Ready? ==> r.nome != "" && r.nome == Strip(PyStr(GetOr(f, "nome", Str(""))))
    ensures r.Ready? ==> PriceParses(GetOr(f, "preco_capa", Str("0.0")))
    ensures r.Ready? && IsNoneAt(f, "numero_edicao") ==> r.edicao == 0
    ensures Strip(PyStr(GetOr(f, "nome", Str("")))) == "" ==> r == Skip
    ensures r.Ready? && !IsNoneAt(f, "numero_edicao") ==> PyInt(GetOr(f, "numero_edicao", Null)) == Some(r.edicao)
    ensures r.Ready? ==> IntOrZero(GetOr(f, "qtd_estoque", Null)).Some?
    ensures r.Ready? ==> r.qtd == if IntOrZero(GetOr(f, "qtd_estoque", Null)).value < 0 then 0 else IntOrZero(GetOr(f, "qtd_estoque", Null)).value
  {
    var nome := Strip(PyStr(GetOr(f, "nome", Str(""))));
    var ev := GetOr(f, "numero_edicao", Null);
    var edicao := if ev == Null then Some(0) else PyInt(ev);
    var qv := GetOr(f, "qtd_estoque", Null);
    var qtd := IntOrZero(qv);
    if nome == "" then Skip
    else if IntOverflows(ev) then Crash
    else if edicao.None? then Skip
    else if IntOverflows(qv) then Crash
    else if qtd.None? || !PriceParses(GetOr(f, "preco_capa", Str("0.0"))) then Skip
    else
      StripIdempotent(PyStr(GetOr(f, "nome", Str(""))));
      Ready(nome, Key(Lower(nome), Num(edicao.value)), edicao.value, if qtd.value < 0 then 0 else qtd.value)
  }

  function Classify(v: Value): (r: Item)
    ensures WellKeyed(r)
  {
    if v.Obj? then ReadItem(v.fields) else Crash
  }

  /** The state the loop carries: the tables, the lookup and the two counters. */
  datatype Run = Run(t: Tables, lookup: map<Key, Known>, inseridas: nat, atualizadas: nat, crashed: bool)

  function Start(t: Tables): Run {
    Run(t, BuildLookup(t.revistas, false), 0, 0, false)
  }

  /** An association insert; a failure is only logged. */
  function LinkEntrega(t: Tables, l: EntregaLink, failed: bool): Tables {
    if failed then t else t.(entregaLinks := t.entregaLinks + [l])
  }

  /** A matched item: its quantity is added to the stock the lookup knows. */
  function ApplyUpdate(r: Run, k: nat, key: Key, qtd: nat, doc: nat, fail: (nat, Call) -> bool): Run
    requires key in r.lookup
  {
    if fail(k, Update) then r
    else
      var known := r.lookup[key];
      var s := known.estoque + qtd;
      var t := r.t.(revistas := SetStock(r.t.revistas, known.id, s));
      r.(t := LinkEntrega(t, EntregaLink(doc, known.id, qtd), fail(k, Link)),
         lookup := r.lookup[key := Known(known.id, s)],
         atualizadas := r.atualizadas + 1)
  }

  /** An unmatched item: a row is created with the item's quantity as its stock. */
  function ApplyInsert(r: Run, k: nat, it: Item, doc: nat, fail: (nat, Call) -> bool): Run
    requires it.Ready?
  {
    if fail(k, Insert) then r
    else
      var id := r.t.nextId;
      var t := AddRevista(r.t, it.nome, Some(it.edicao), None, it.qtd);
      r.(t := LinkEntrega(t, EntregaLink(doc, id, it.qtd), fail(k, Link)),
         lookup := r.lookup[it.key := Known(id, it.qtd)],
         inseridas := r.inseridas + 1)
  }

  /** One iteration, for item number `k`. */
  function Step(r: Run, k: nat, it: Item, doc: nat, fail: (nat, Call) -> bool): Run {
    if r.crashed then r
    else match it
      case Crash => r.(crashed := true)
      case Skip => r
      case Ready(_, key, _, qtd) =>
        if key in r.lookup then ApplyUpdate(r, k, key, qtd, doc, fail)
        else ApplyInsert(r, k, it, doc, fail)
  }

  /** Every element of the list, read. */
  function Classified(vs: seq<Value>): (its: seq<Item>)
    ensures |its| == |vs|
    ensures forall i :: 0 <= i < |vs| ==> its[i] == Classify(vs[i]) && WellKeyed(its[i])
  {
    seq(|vs|, i requires 0 <= i < |vs| => Classify(vs[i]))
  }

  /** The loop over the items, item by item. */
  function Fold(r0: Run, items: seq<Item>, doc: nat, fail: (nat, Call) -> bool): Run
    decreases |items|
  {
    if items == [] then r0
    else
      var n := |items| - 1;
      Step(Fold(r0, items[..n], doc, fail), n, items[n], doc, fail)
  }

  /**
   * `_cadastrar_revistas_db`: `doc` is the decoded delivery note,
   * `fetchFails` says whether reading the catalog fails, and `fail`
   * which store call fails for which item.
   */
  function Reconcile(t: Tables, doc: seq<Field>, id: nat, fetchFails: bool, fail: (nat, Call) -> bool): Outcome {
    var lista := GetOr(doc, "revistas", Arr([]));
    if !Truthy(lista) then Outcome(Ok((0, 0)), t)
    else if fetchFails || !lista.Arr? then Outcome(Err(Http(500)), t)
    else
      var r := Fold(Start(t), Classified(lista.items), id, fail);
      if r.crashed then Outcome(Err(Http(500)), r.t)
      else Outcome(Ok((r.inseridas, r.atualizadas)), r.t)
  }

  /**
   * What a reconciliation guarantees: an empty list writes nothing; each
   * item is counted at most once; old rows keep everything but their
   * stock; new rows have pairwise distinct keys the catalog did not know;
   * association rows are only appended, each for this document, an
   * existing magazine and a non-negative quantity, one per counted item
   * when no association insert fails; the other tables are untouched.
   */
  lemma ReconcileGuarantees(t: Tables, doc: seq<Field>, id: nat, fetchFails: bool, fail: (nat, Call) -> bool, o: Outcome)
    requires ValidTables(t) && o == Reconcile(t, doc, id, fetchFails, fail)
    ensures ValidTables(o.t)
    ensures !Truthy(GetOr(doc, "revistas", Arr([]))) ==> o == Outcome(Ok((0, 0)), t)
    ensures o.counts.Ok? && GetOr(doc, "revistas", Arr([])).Arr? ==>
      o.counts.value.0 + o.counts.value.1 <= |GetOr(doc, "revistas", Arr([])).items|
    ensures |o.t.revistas| >= |t.revistas| && o.t.revistas[..|t.revistas|] == WithStocks(t.revistas, o.t.revistas)
    ensures forall i, j :: |t.revistas| <= i < j < |o.t.revistas| ==> RowKey(o.t.revistas[i], false) != RowKey(o.t.revistas[j], false)
    ensures forall i :: |t.revistas| <= i < |o.t.revistas| ==> RowKey(o.t.revistas[i], false) !in BuildLookup(t.revistas, false)
    ensures |o.t.entregaLinks| >= |t.entregaLinks| && o.t.entregaLinks[..|t.entregaLinks|] == t.entregaLinks
    ensures forall i :: |t.entregaLinks| <= i < |o.t.entregaLinks| ==>
      o.t.entregaLinks[i].documento == id && o.t.entregaLinks[i].qtdEntregue >= 0 && HasRevista(o.t, o.t.entregaLinks[i].revista)
    ensures o.counts.Ok? && (forall k :: !fail(k, Link)) ==>
      |o.t.entregaLinks| == |t.entregaLinks| + o.counts.value.0 + o.counts.value.1
    ensures o.t.devolucaoLinks == t.devolucaoLinks && o.t.chamadas == t.chamadas && o.t.documentos == t.documentos
  {
    var lista := GetOr(doc, "revistas", Arr([]));
    if Truthy(lista) && !fetchFails && lista.Arr? {
      var items := Classified(lista.items);
      RunGuarantees(t, items, id, fail, Fold(Start(t), items, id, fail));
    }
  }

  /** The guarantees above for a run over read items, whether or not it crashed. */
  lemma RunGuarantees(t: Tables, items: seq<Item>, id: nat, fail: (nat, Call) -> bool, r: Run)
    requires ValidTables(t) && (forall i :: 0 <= i < |items| ==> WellKeyed(items[i])) && r == Fold(Start(t), items, id, fail)
    ensures ValidTables(r.t)
    ensures r.inseridas + r.atualizadas <= |items|
    ensures |r.t.revistas| >= |t.revistas| && r.t.revistas[..|t.revistas|] == WithStocks(t.revistas, r.t.revistas)
    ensures forall i, j :: |t.revistas| <= i < j < |r.t.revistas| ==> RowKey(r.t.revistas[i], false) != RowKey(r.t.revistas[j], false)
    ensures forall i :: |t.revistas| <= i < |r.t.revistas| ==> RowKey(r.t.revistas[i], false) !in BuildLookup(t.revistas, false)
    ensures |r.t.entregaLinks| >= |t.entregaLinks| && r.t.entregaLinks[..|t.entregaLinks|] == t.entregaLinks
    ensures forall i :: |t.entregaLinks| <= i < |r.t.entregaLinks| ==>
      r.t.entregaLinks[i].documento == id && r.t.entregaLinks[i].qtdEntregue >= 0 && HasRevista(r.t, r.t.entregaLinks[i].revista)
    ensures (forall k :: !fail(k, Link)) ==> |r.t.entregaLinks| == |t.entregaLinks| + r.inseridas + r.atualizadas
    ensures r.t.devolucaoLinks == t.devolucaoLinks && r.t.chamadas == t.chamadas && r.t.documentos == t.documentos
  {
    StartInv(t, id);
    FoldInv(t, Start(t), items, id, fail);
    FoldCounts(Start(t), items, id, fail);
    NewRowsDistinct(t, r);
    FoldLinkCount(Start(t), items, id, fail);
  }

  // ---------------------------------------------------------------------
  // What every iteration preserves
  // ---------------------------------------------------------------------

  /** No two lookup entries name the same row. */
  predicate LookupInjective(m: map<Key, Known>) {
    forall k1, k2 :: k1 in m && k2 in m && m[k1].id == m[k2].id ==> k1 == k2
  }

  /** A row created by this run is reachable through its own key, which the catalog did not know. */
  predicate NewRowKeyed(t0: Tables, rows: seq<Revista>, m: map<Key, Known>, j: int)
    requires 0 <= j < |rows|
  {
    var key := RowKey(rows[j], false);
    key in m && m[key].id == rows[j].id && key !in BuildLookup(t0.revistas, false)
  }

  /** The rows: the old ones keep everything but their stock, and one row per insert is added. */
  predicate RowsInv(t0: Tables, r: Run) {
    ValidTables(r.t) &&
    |r.t.revistas| == |t0.revistas| + r.inseridas &&
    r.t.revistas[..|t0.revistas|] == WithStocks(t0.revistas, r.t.revistas) &&
    r.t.devolucaoLinks == t0.devolucaoLinks && r.t.chamadas == t0.chamadas && r.t.documentos == t0.documentos
  }

  /** The associations: old ones kept, at most one new one per counted item, each for this document. */
  predicate LinksInv(t0: Tables, r: Run, doc: nat) {
    |t0.entregaLinks| <= |r.t.entregaLinks| <= |t0.entregaLinks| + r.inseridas + r.atualizadas &&
    r.t.entregaLinks[..|t0.entregaLinks|] == t0.entregaLinks &&
    forall i :: |t0.entregaLinks| <= i < |r.t.entregaLinks| ==>
      r.t.entregaLinks[i].documento == doc && r.t.entregaLinks[i].qtdEntregue >= 0 &&
      HasRevista(r.t, r.t.entregaLinks[i].revista)
  }

  /** The lookup: agrees with the table, is one-to-one, only grows, and knows every new row. */
  predicate LookupInv(t0: Tables, r: Run) {
    |r.t.revistas| >= |t0.revistas| &&
    LookupAgrees(r.lookup, r.t.revistas) &&
    LookupInjective(r.lookup) &&
    (forall k :: k in BuildLookup(t0.revistas, false) ==> k in r.lookup && r.lookup[k].id == BuildLookup(t0.revistas, false)[k].id) &&
    (forall j :: |t0.revistas| <= j < |r.t.revistas| ==> NewRowKeyed(t0, r.t.revistas, r.lookup, j))
  }

  predicate Inv(t0: Tables, r: Run, doc: nat) {
    RowsInv(t0, r) && LinksInv(t0, r, doc) && LookupInv(t0, r)
  }

  lemma StartInv(t: Tables, doc: nat)
    requires ValidTables(t)
    ensures Inv(t, Start(t), doc)
  {
    assert t.revistas[..|t.revistas|] == WithStocks(t.revistas, t.revistas);
    StartAgrees(t.revistas);
    StartInjective(t);
  }

  lemma StartAgrees(rows: seq<Revista>)
    ensures LookupAgrees(BuildLookup(rows, false), rows)
  {
    var m := BuildLookup(rows, false);
    forall k | k in m
      ensures exists i :: 0 <= i < |rows| && rows[i].id == m[k].id && rows[i].estoque == m[k].estoque
    {
      LookupSound(rows, false, k);
    }
  }

  lemma StartInjective(t: Tables)
    requires ValidTables(t)
    ensures LookupInjective(BuildLookup(t.revistas, false))
  {
    var rows, m := t.revistas, BuildLookup(t.revistas, false);
    IdsUnique(rows, t.nextId);
    forall k1, k2 | k1 in m && k2 in m && m[k1].id == m[k2].id
      ensures k1 == k2
    {
      LookupSound(rows, false, k1);
      LookupSound(rows, false, k2);
      var i1 :| 0 <= i1 < |rows| && RowKey(rows[i1], false) == k1 && m[k1] == Known(rows[i1].id, rows[i1].estoque);
      var i2 :| 0 <= i2 < |rows| && RowKey(rows[i2], false) == k2 && m[k2] == Known(rows[i2].id, rows[i2].estoque);
      assert i1 == i2;
    }
  }

  /** Setting one row's stock keeps the ids and the rows' other columns. */
  lemma SetStockRows(t0: Tables, rows: seq<Revista>, id: nat, s: int)
    requires |rows| >= |t0.revistas| && rows[..|t0.revistas|] == WithStocks(t0.revistas, rows)
    ensures var rows' := SetStock(rows, id, s);
      rows'[..|t0.revistas|] == WithStocks(t0.revistas, rows') &&
      forall i :: 0 <= i < |rows| ==> rows'[i].id == rows[i].id && RowKey(rows'[i], false) == RowKey(rows[i], false)
  {
    var rows' := SetStock(rows, id, s);
    var n0 := |t0.revistas|;
    forall i | 0 <= i < n0
      ensures rows'[i] == t0.revistas[i].(estoque := rows'[i].estoque)
    {
      assert rows[..n0][i] == rows[i];
    }
  }

  lemma UpdateRows(t0: Tables, r: Run, k: nat, key: Key, qtd: nat, doc: nat, fail: (nat, Call) -> bool)
    requires RowsInv(t0, r) && key in r.lookup && !fail(k, Update)
    ensures RowsInv(t0, ApplyUpdate(r, k, key, qtd, doc, fail))
  {
    var known := r.lookup[key];
    SetStockRows(t0, r.t.revistas, known.id, known.estoque + qtd);
    SetStockKeepsIds(r.t.revistas, known.id, known.estoque + qtd, r.t.nextId);
  }

  lemma UpdateLinks(t0: Tables, r: Run, k: nat, key: Key, qtd: nat, doc: nat, fail: (nat, Call) -> bool)
    requires LinksInv(t0, r, doc) && LookupAgrees(r.lookup, r.t.revistas) && key in r.lookup && !fail(k, Update)
    ensures LinksInv(t0, ApplyUpdate(r, k, key, qtd, doc, fail), doc)
  {
    var known := r.lookup[key];
    var rows := r.t.revistas;
    var rows' := SetStock(rows, known.id, known.estoque + qtd);
    var r' := ApplyUpdate(r, k, key, qtd, doc, fail);
    assert r'.t.revistas == rows';
    forall id | HasRevista(r.t, id)
      ensures HasRevista(r'.t, id)
    {
      var i :| 0 <= i < |rows| && rows[i].id == id;
      assert rows'[i].id == id;
    }
    var i :| 0 <= i < |rows| && rows[i].id == known.id && rows[i].estoque == known.estoque;
    assert rows'[i].id == known.id;
    assert HasRevista(r'.t, known.id);
  }

  lemma UpdateLookup(t0: Tables, r: Run, k: nat, key: Key, qtd: nat, doc: nat, fail: (nat, Call) -> bool)
    requires LookupInv(t0, r) && key in r.lookup && !fail(k, Update)
    ensures LookupInv(t0, ApplyUpdate(r, k, key, qtd, doc, fail))
  {
    var known := r.lookup[key];
    var s := known.estoque + qtd;
    var rows := r.t.revistas;
    var rows' := SetStock(rows, known.id, s);
    var r' := ApplyUpdate(r, k, key, qtd, doc, fail);
    var m' := r.lookup[key := Known(known.id, s)];
    assert r'.t.revistas == rows' && r'.lookup == m';
    forall k' | k' in m'
      ensures exists i :: 0 <= i < |rows'| && rows'[i].id == m'[k'].id && rows'[i].estoque == m'[k'].estoque
    {
      var i :| 0 <= i < |rows| && rows[i].id == r.lookup[k'].id && rows[i].estoque == r.lookup[k'].estoque;
      if k' == key {
        assert rows'[i].id == m'[k'].id && rows'[i].estoque == m'[k'].estoque;
      } else {
        assert rows[i].id != known.id;
        assert rows'[i] == rows[i];
      }
    }
    forall j | |t0.revistas| <= j < |rows'|
      ensures NewRowKeyed(t0, rows', m', j)
    {
      assert NewRowKeyed(t0, rows, r.lookup, j);
      assert RowKey(rows'[j], false) == RowKey(rows[j], false);
    }
  }

  /** Every entry of a lookup that agrees with a valid table names an id below the generator. */
  lemma LookupBelowNext(m: map<Key, Known>, t: Tables)
    requires ValidTables(t) && LookupAgrees(m, t.revistas)
    ensures forall k :: k in m ==> m[k].id < t.nextId
  {
    forall k | k in m
      ensures m[k].id < t.nextId
    {
      var i :| 0 <= i < |t.revistas| && t.revistas[i].id == m[k].id && t.revistas[i].estoque == m[k].estoque;
    }
  }

  lemma InsertRows(t0: Tables, r: Run, k: nat, it: Item, doc: nat, fail: (nat, Call) -> bool)
    requires RowsInv(t0, r) && it.Ready? && !fail(k, Insert)
    ensures RowsInv(t0, ApplyInsert(r, k, it, doc, fail))
  {
    var rows := r.t.revistas;
    var r' := ApplyInsert(r, k, it, doc, fail);
    var n0 := |t0.revistas|;
    assert r'.t.revistas == rows + [Revista(r.t.nextId, it.nome, None, Some(it.edicao), None, it.qtd)];
    assert r'.t.revistas[..n0] == rows[..n0];
  }

  lemma InsertLinks(t0: Tables, r: Run, k: nat, it: Item, doc: nat, fail: (nat, Call) -> bool)
    requires LinksInv(t0, r, doc) && it.Ready? && !fail(k, Insert)
    ensures LinksInv(t0, ApplyInsert(r, k, it, doc, fail), doc)
  {
    var rows := r.t.revistas;
    var r' := ApplyInsert(r, k, it, doc, fail);
    assert r'.t.revistas == rows + [Revista(r.t.nextId, it.nome, None, Some(it.edicao), None, it.qtd)];
    forall id | HasRevista(r.t, id)
      ensures HasRevista(r'.t, id)
    {
      var i :| 0 <= i < |rows| && rows[i].id == id;
      assert r'.t.revistas[i].id == id;
    }
    assert r'.t.revistas[|rows|].id == r.t.nextId;
  }

  /** A fresh row under a fresh key keeps the lookup in agreement with the table and one-to-one. */
  lemma InsertAgrees(m: map<Key, Known>, t: Tables, key: Key, row: Revista)
    requires ValidTables(t) && LookupAgrees(m, t.revistas) && LookupInjective(m)
    requires key !in m && row.id == t.nextId
    ensures LookupAgrees(m[key := Known(row.id, row.estoque)], t.revistas + [row])
    ensures LookupInjective(m[key := Known(row.id, row.estoque)])
  {
    var rows' := t.revistas + [row];
    var m' := m[key := Known(row.id, row.estoque)];
    LookupBelowNext(m, t);
    forall k' | k' in m'
      ensures exists i :: 0 <= i < |rows'| && rows'[i].id == m'[k'].id && rows'[i].estoque == m'[k'].estoque
    {
      if k' == key {
        assert rows'[|t.revistas|] == row;
      } else {
        var i :| 0 <= i < |t.revistas| && t.revistas[i].id == m[k'].id && t.revistas[i].estoque == m[k'].estoque;
        assert rows'[i] == t.revistas[i];
      }
    }
  }

  lemma InsertLookup(t0: Tables, r: Run, k: nat, it: Item, doc: nat, fail: (nat, Call) -> bool)
    requires LookupInv(t0, r) && ValidTables(r.t) && it.Ready? && WellKeyed(it) && it.key !in r.lookup && !fail(k, Insert)
    ensures LookupInv(t0, ApplyInsert(r, k, it, doc, fail))
  {
    var rows := r.t.revistas;
    var row := Revista(r.t.nextId, it.nome, None, Some(it.edicao), None, it.qtd);
    var rows' := rows + [row];
    var m' := r.lookup[it.key := Known(row.id, row.estoque)];
    var r' := ApplyInsert(r, k, it, doc, fail);
    assert r'.t.revistas == rows' && r'.lookup == m';
    InsertAgrees(r.lookup, r.t, it.key, row);
    forall j | |t0.revistas| <= j < |rows'|
      ensures NewRowKeyed(t0, rows', m', j)
    {
      if j < |rows| {
        assert NewRowKeyed(t0, rows, r.lookup, j);
        assert rows'[j] == rows[j];
      } else {
        assert rows'[j] == row;
        assert RowKey(row, false) == it.key;
      }
    }
  }

  lemma StepInv(t0: Tables, r: Run, k: nat, it: Item, doc: nat, fail: (nat, Call) -> bool)
    requires Inv(t0, r, doc) && WellKeyed(it)
    ensures Inv(t0, Step(r, k, it, doc, fail), doc)
  {
    if !r.crashed && it.Ready? {
      if it.key in r.lookup {
        if !fail(k, Update) {
          UpdateRows(t0, r, k, it.key, it.qtd, doc, fail);
          UpdateLinks(t0, r, k, it.key, it.qtd, doc, fail);
          UpdateLookup(t0, r, k, it.key, it.qtd, doc, fail);
        }
      } else if !fail(k, Insert) {
        InsertRows(t0, r, k, it, doc, fail);
        InsertLinks(t0, r, k, it, doc, fail);
        InsertLookup(t0, r, k, it, doc, fail);
      }
    }
  }

  lemma {:induction false} FoldInv(t0: Tables, r0: Run, items: seq<Item>, doc: nat, fail: (nat, Call) -> bool)
    requires Inv(t0, r0, doc) && forall i :: 0 <= i < |items| ==> WellKeyed(items[i])
    ensures Inv(t0, Fold(r0, items, doc, fail), doc)
    decreases |items|
  {
    if items != [] {
      var n := |items| - 1;
      var r := Fold(r0, items[..n], doc, fail);
      FoldInv(t0, r0, items[..n], doc, fail);
      StepInv(t0, r, n, items[n], doc, fail);
    }
  }

  /** Each item moves at most one counter, and the counters never go down. */
  lemma {:induction false} FoldCounts(r0: Run, items: seq<Item>, doc: nat, fail: (nat, Call) -> bool)
    ensures var r := Fold(r0, items, doc, fail);
      r0.inseridas <= r.inseridas && r0.atualizadas <= r.atualizadas &&
      r.inseridas + r.atualizadas <= r0.inseridas + r0.atualizadas + |items|
    decreases |items|
  {
    if items != [] {
      FoldCounts(r0, items[..|items| - 1], doc, fail);
    }
  }

  /** Rows created in one run never share a key, and none has a key the catalog already had. */
  lemma NewRowsDistinct(t0: Tables, r: Run)
    requires LookupInv(t0, r) && ValidTables(r.t)
    ensures forall i, j :: |t0.revistas| <= i < j < |r.t.revistas| ==> RowKey(r.t.revistas[i], false) != RowKey(r.t.revistas[j], false)
    ensures forall i :: |t0.revistas| <= i < |r.t.revistas| ==> RowKey(r.t.revistas[i], false) !in BuildLookup(t0.revistas, false)
  {
    var rows := r.t.revistas;
    forall i, j | |t0.revistas| <= i < j < |rows|
      ensures RowKey(rows[i], false) != RowKey(rows[j], false)
    {
      assert NewRowKeyed(t0, rows, r.lookup, i) && NewRowKeyed(t0, rows, r.lookup, j);
      assert rows[i].id < rows[j].id;
    }
    forall i | |t0.revistas| <= i < |rows|
      ensures RowKey(rows[i], false) !in BuildLookup(t0.revistas, false)
    {
      assert NewRowKeyed(t0, rows, r.lookup, i);
    }
  }

  /** Once an item crashes the loop, the later items change nothing. */
  lemma {:induction false} FoldCrashed(r0: Run, items: seq<Item>, j: nat, doc: nat, fail: (nat, Call) -> bool)
    requires j <= |items| && Fold(r0, items[..j], doc, fail).crashed
    ensures Fold(r0, items, doc, fail) == Fold(r0, items[..j], doc, fail)
    decreases |items|
  {
    if j < |items| {
      var n := |items| - 1;
      assert items[..n][..j] == items[..j];
      FoldCrashed(r0, items[..n], j, doc, fail);
    } else {
      assert items[..j] == items;
    }
  }

  // ---------------------------------------------------------------------
  // The loop itself
  // ---------------------------------------------------------------------

  /** The body of the loop for one item that was read without raising. */
  method ApplyItem(db: Store, lookup: map<Key, Known>, inseridas: nat, atualizadas: nat, it: Item, k: nat, id: nat, fail: (nat, Call) -> bool)
    returns (lookup': map<Key, Known>, inseridas': nat, atualizadas': nat)
    requires db.Valid() && it != Crash
    modifies db
    ensures db.Valid()
    ensures Run(db.State(), lookup', inseridas', atualizadas', false) ==
      Step(Run(old(db.State()), lookup, inseridas, atualizadas, false), k, it, id, fail)
  {
    ghost var r := Run(db.State(), lookup, inseridas, atualizadas, false);
    lookup', inseridas', atualizadas' := lookup, inseridas, atualizadas;
    if it.Ready? {
      if it.key in lookup {
        var known := lookup[it.key];
        var ok := db.UpdateStock(known.id, known.estoque + it.qtd, fail(k, Update));
        if ok {
          atualizadas' := atualizadas + 1;
          lookup' := lookup[it.key := Known(known.id, known.estoque + it.qtd)];
          ok := db.InsertEntregaLink(EntregaLink(id, known.id, it.qtd), fail(k, Link));
        }
        assert Step(r, k, it, id, fail) == ApplyUpdate(r, k, it.key, it.qtd, id, fail);
      } else {
        var res := db.InsertRevista(it.nome, Some(it.edicao), None, it.qtd, fail(k, Insert));
        if res.Inserted? {
          inseridas' := inseridas + 1;
          lookup' := lookup[it.key := Known(res.id, it.qtd)];
          var ok := db.InsertEntregaLink(EntregaLink(id, res.id, it.qtd), fail(k, Link));
        }
        assert Step(r, k, it, id, fail) == ApplyInsert(r, k, it, id, fail);
      }
    }
  }

  /**
   * `_cadastrar_revistas_db` against the store: the same result and the
   * same tables as `Reconcile`.
   */
  method CadastrarRevistasDb(db: Store, doc: seq<Field>, id: nat, fetchFails: bool, fail: (nat, Call) -> bool)
    returns (counts: Result<(nat, nat), HttpError>)
    requires db.Valid()
    modifies db
    ensures db.Valid()
    ensures Outcome(counts, db.State()) == Reconcile(old(db.State()), doc, id, fetchFails, fail)
  {
    var lista := GetOr(doc, "revistas", Arr([]));
    if !Truthy(lista) {
      return Ok((0, 0));
    }
    if fetchFails || !lista.Arr? {
      return Err(Http(500));
    }
    var lookup := LoadLookup(db.revistas, false);
    var crashed, lookup', inseridas, atualizadas := ProcessItems(db, lista.items, lookup, id, fail);
    if crashed {
      return Err(Http(500));
    }
    return Ok((inseridas, atualizadas));
  }

  /** The `for` loop over the items, from a loaded lookup and zero counters; it stops at the first crash. */
  method ProcessItems(db: Store, vs: seq<Value>, lookup0: map<Key, Known>, id: nat, fail: (nat, Call) -> bool)
    returns (crashed: bool, lookup: map<Key, Known>, inseridas: nat, atualizadas: nat)
    requires db.Valid()
    modifies db
    ensures db.Valid()
    ensures Run(db.State(), lookup, inseridas, atualizadas, crashed) ==
      Fold(Run(old(db.State()), lookup0, 0, 0, false), Classified(vs), id, fail)
  {
    ghost var r0 := Run(db.State(), lookup0, 0, 0, false);
    ghost var items := Classified(vs);
    lookup, inseridas, atualizadas, crashed := lookup0, 0, 0, false;
    var i := 0;
    assert items[..0] == [];
    while i < |vs|
      invariant 0 <= i <= |vs|
      invariant db.Valid()
      invariant Fold(r0, items[..i], id, fail) == Run(db.State(), lookup, inseridas, atualizadas, false)
    {
      ghost var r := Run(db.State(), lookup, inseridas, atualizadas, false);
      var it := Classify(vs[i]);
      FoldSnoc(r0, items, i, id, fail);
      if it.Crash? {
        FoldCrashed(r0, items, i + 1, id, fail);
        return true, lookup, inseridas, atualizadas;
      }
      lookup, inseridas, atualizadas := ApplyItem(db, lookup, inseridas, atualizadas, it, i, id, fail);
      i := i + 1;
    }
    assert items[..i] == items;
  }

  /** Folding one more item is one more step. */
  lemma FoldSnoc(r0: Run, items: seq<Item>, n: nat, doc: nat, fail: (nat, Call) -> bool)
    requires n < |items|
    ensures Fold(r0, items[..n + 1], doc, fail) == Step(Fold(r0, items[..n], doc, fail), n, items[n], doc, fail)
  {
    assert items[..n + 1][..n] == items[..n];
  }

  /** With no failing association insert, every counted item has exactly one association row. */
  lemma {:induction false} FoldLinkCount(r0: Run, items: seq<Item>, doc: nat, fail: (nat, Call) -> bool)
    ensures var r := Fold(r0, items, doc, fail);
      (forall k :: !fail(k, Link)) ==>
        |r.t.entregaLinks| + r0.inseridas + r0.atualizadas == |r0.t.entregaLinks| + r.inseridas + r.atualizadas
    decreases |items|
  {
    if items != [] {
      FoldLinkCount(r0, items[..|items| - 1], doc, fail);
    }
  }

  /**
   * A matched item adds its quantity to the current stock of the row the
   * lookup names, and to no other row; one association row follows unless
   * that insert fails.
   */
  lemma StepAddsToStock(t0: Tables, r: Run, k: nat, it: Item, doc: nat, fail: (nat, Call) -> bool)
    requires Inv(t0, r, doc) && !r.crashed && it.Ready? && it.key in r.lookup && !fail(k, Update)
    ensures var r' := Step(r, k, it, doc, fail); var id := r.lookup[it.key].id;
      r'.atualizadas == r.atualizadas + 1 && r'.inseridas == r.inseridas &&
      |r'.t.revistas| == |r.t.revistas| &&
      (forall i :: 0 <= i < |r.t.revistas| ==>
         r'.t.revistas[i] == if r.t.revistas[i].id == id then r.t.revistas[i].(estoque := r.t.revistas[i].estoque + it.qtd) else r.t.revistas[i]) &&
      r'.t.entregaLinks == r.t.entregaLinks + (if fail(k, Link) then [] else [EntregaLink(doc, id, it.qtd)])
  {
    var rows := r.t.revistas;
    var known := r.lookup[it.key];
    var i0 :| 0 <= i0 < |rows| && rows[i0].id == known.id && rows[i0].estoque == known.estoque;
    IdsUnique(rows, r.t.nextId);
  }

  /**
   * A catalog entry the item matches has the item's edition and the same
   * normalised name; in particular a catalog row with a null edition is
   * never matched, since its key carries "None".
   */
  lemma MatchedRowHasEdition(rows: seq<Revista>, it: Item)
    requires it.Ready? && WellKeyed(it) && it.key in BuildLookup(rows, false)
    ensures exists i ::
      0 <= i < |rows| && rows[i].id == BuildLookup(rows, false)[it.key].id && rows[i].edicao == Some(it.edicao) && NameKey(rows[i].nome) == NameKey(it.nome)
  {
    LookupSound(rows, false, it.key);
  }

  /**
   * The same new magazine twice in one note: the first copy creates the
   * row, the second finds it and adds to its stock.
   */
  lemma SecondCopyUpdates(r: Run, k: nat, it: Item, doc: nat, fail: (nat, Call) -> bool)
    requires !r.crashed && it.Ready? && it.key !in r.lookup && !fail(k, Insert) && !fail(k + 1, Update)
    ensures var r2 := Step(Step(r, k, it, doc, fail), k + 1, it, doc, fail);
      r2.inseridas == r.inseridas + 1 && r2.atualizadas == r.atualizadas + 1 &&
      |r2.t.revistas| == |r.t.revistas| + 1 && r2.t.revistas[|r.t.revistas|].estoque == 2 * it.qtd
  {
    var r1 := Step(r, k, it, doc, fail);
    assert r1 == ApplyInsert(r, k, it, doc, fail);
    assert r1.lookup[it.key] == Known(r.t.nextId, it.qtd);
    assert r1.t.revistas[|r.t.revistas|].id == r.t.nextId;
  }

  /**
   * An item that is blank, or whose edition, quantity or price does not
   * convert without an OverflowError, changes nothing.
   */
  lemma SkippedItemChangesNothing(r: Run, k: nat, f: seq<Field>, doc: nat, fail: (nat, Call) -> bool)
    requires
      || Strip(PyStr(GetOr(f, "nome", Str("")))) == ""
      || (!Overflows(f) && (
          || (!IsNoneAt(f, "numero_edicao") && PyInt(GetOr(f, "numero_edicao", Null)).None?)
          || IntOrZero(GetOr(f, "qtd_estoque", Null)).None?
          || !PriceParses(GetOr(f, "preco_capa", Str("0.0")))))
    ensures Step(r, k, Classify(Obj(f)), doc, fail) == r
  {
    assert Classify(Obj(f)) == ReadItem(f) == Skip;
  }

  /**
   * A failing store call is only logged: a failed update or insert leaves
   * the run as it was, a failed association insert only loses its row,
   * and none of them stops the loop.
   */
  lemma StoreFailureIsLogged(r: Run, k: nat, it: Item, doc: nat, fail: (nat, Call) -> bool)
    ensures !r.crashed && it.Ready? ==> !Step(r, k, it, doc, fail).crashed
    ensures it.Ready? && it.key in r.lookup && fail(k, Update) ==> Step(r, k, it, doc, fail) == r
    ensures it.Ready? && it.key !in r.lookup && fail(k, Insert) ==> Step(r, k, it, doc, fail) == r
    ensures !r.crashed && it.Ready? && fail(k, Link) ==> Step(r, k, it, doc, fail).t.entregaLinks == r.t.entregaLinks
    ensures !r.crashed && it.Ready? && !(if it.key in r.lookup then fail(k, Update) else fail(k, Insert)) ==>
      Step(r, k, it, doc, fail).inseridas + Step(r, k, it, doc, fail).atualizadas == r.inseridas + r.atualizadas + 1
  {
  }

  /** Only an item that is not an object, or an OverflowError, stops the loop. */
  lemma {:induction false} FoldWithoutCrash(r0: Run, items: seq<Item>, doc: nat, fail: (nat, Call) -> bool)
    requires !r0.crashed && forall i :: 0 <= i < |items| ==> !items[i].Crash?
    ensures !Fold(r0, items, doc, fail).crashed
    decreases |items|
  {
    if items != [] {
      FoldWithoutCrash(r0, items[..|items| - 1], doc, fail);
    }
  }

  /**
   * Once the catalog is read, a list of objects none of which overflows
   * is always counted, whichever store calls fail.
   */
  lemma StoreFailuresContinue(t: Tables, doc: seq<Field>, id: nat, fail: (nat, Call) -> bool)
    requires GetOr(doc, "revistas", Arr([])).Arr?
    requires forall i :: 0 <= i < |GetOr(doc, "revistas", Arr([])).items| ==>
      GetOr(doc, "revistas", Arr([])).items[i].Obj? && !Overflows(GetOr(doc, "revistas", Arr([])).items[i].fields)
    ensures Reconcile(t, doc, id, false, fail).counts.Ok?
  {
    var lista := GetOr(doc, "revistas", Arr([]));
    var items := Classified(lista.items);
    forall i | 0 <= i < |items|
      ensures !items[i].Crash?
    {
      assert items[i] == ReadItem(lista.items[i].fields);
    }
    FoldWithoutCrash(Start(t), items, id, fail);
  }

  // ---------------------------------------------------------------------
  // The endpoint
  // ---------------------------------------------------------------------

  /** The header fields a delivery note must carry, in the order they are checked. */
  const HEADER_FIELDS: seq<string> := ["ponto_venda_id", "nota_entrega_id", "data"]

  /** `r` is `keys` with some elements left out, the rest in their order. */
  predicate Subsequence(r: seq<string>, keys: seq<string>)
    decreases |keys|
  {
    if r == [] then true
    else if keys == [] then false
    else if r[0] == keys[0] then Subsequence(r[1..], keys[1..])
    else Subsequence(r, keys[1..])
  }

  /** The fields among `keys` that are missing or null in `cd`, in the order of `keys`. */
  function Missing(cd: seq<Field>, keys: seq<string>): (r: seq<string>)
    ensures forall x :: x in r <==> x in keys && IsNoneAt(cd, x)
    ensures Subsequence(r, keys)
    decreases |keys|
  {
    if keys == [] then []
    else
      var rest := Missing(cd, keys[1..]);
      var r := if IsNoneAt(cd, keys[0]) then [keys[0]] + rest else rest;
      assert r != [] && r[0] == keys[0] ==> r[1..] == rest;
      r
  }

  /** The response of `cadastrar_chamada` in the deliveries router. */
  datatype Response =
    | Created(idEntrega: nat, inseridas: nat, atualizadas: nat)
    | MissingFields(missing: seq<string>)                 // 400, naming the missing header fields
    | Failed(code: nat)

  /**
   * The checks before anything is written: `fileEmpty` says whether the
   * upload is empty, `extraction` is the decoded note (None when the
   * extraction raises), `parseDate` is `%Y-%m-%d` parsing. On success,
   * the note and the delivery date.
   */
  function ReadHeader(fileEmpty: bool, extraction: Option<seq<Field>>, parseDate: string -> Option<Date>): Result<(seq<Field>, Date), Response> {
    if fileEmpty || extraction.None? then Err(Failed(400))
    else
      var json := extraction.value;
      if !HasKey(json, "notasentrega") then Err(Failed(400))
      else
        var cd := GetOr(json, "notasentrega", Null);
        if cd == Null then Err(Failed(400))                    // KeyError
        else if !cd.Obj? then Err(Failed(500))                 // `cd.get` raises AttributeError
        else
          var missing := Missing(cd.fields, HEADER_FIELDS);
          if missing != [] then Err(MissingFields(missing))
          else
            var data := GetOr(cd.fields, "data", Null);
            if !data.Str? then Err(Failed(500))                // strptime raises TypeError
            else match parseDate(data.s)
              case None => Err(Failed(400))                    // ValueError
              case Some(d) => Ok((json, d))
  }

  /** The header checks reject with 400 exactly when the source raises KeyError or ValueError, and name the missing fields. */
  lemma ReadHeaderRejects(fileEmpty: bool, extraction: Option<seq<Field>>, parseDate: string -> Option<Date>)
    ensures var h := ReadHeader(fileEmpty, extraction, parseDate);
      h.Ok? ==>
        && extraction.Some? && h.value.0 == extraction.value && HasKey(h.value.0, "notasentrega")
        && GetOr(h.value.0, "notasentrega", Null).Obj?
        && (forall x :: x in HEADER_FIELDS ==> !IsNoneAt(GetOr(h.value.0, "notasentrega", Null).fields, x))
    ensures var h := ReadHeader(fileEmpty, extraction, parseDate);
      h.Err? && h.error.MissingFields? ==>
        && h.error.missing != [] && Subsequence(h.error.missing, HEADER_FIELDS)
        && forall x :: x in h.error.missing <==> x in HEADER_FIELDS && IsNoneAt(GetOr(extraction.value, "notasentrega", Null).fields, x)
    ensures fileEmpty ==> ReadHeader(fileEmpty, extraction, parseDate) == Err(Failed(400))
  {
    var h := ReadHeader(fileEmpty, extraction, parseDate);
    if h.Ok? {
      var cd := GetOr(extraction.value, "notasentrega", Null);
      assert Missing(cd.fields, HEADER_FIELDS) == [];
    }
  }

  /**
   * `cadastrar_chamada` of the deliveries router: header checks, the
   * document insert (`insertFails` says whether it raises), then the
   * reconciliation.
   */
  function Entrada(t: Tables, user: string, fileEmpty: bool, extraction: Option<seq<Field>>, parseDate: string -> Option<Date>,
                   insertFails: bool, fetchFails: bool, fail: (nat, Call) -> bool): (Response, Tables)
  {
    match ReadHeader(fileEmpty, extraction, parseDate)
    case Err(resp) => (resp, t)
    case Ok((json, date)) =>
      if insertFails then (Failed(500), t)
      else Register(t, user, json, date, fetchFails, fail)
  }

  /** The answer for a registered document `id`, given how its reconciliation ended. */
  function Respond(id: nat, o: Outcome): (Response, Tables) {
    match o.counts
    case Ok((ins, upd)) => (Created(id, ins, upd), o.t)
    case Err(_) => (Failed(500), o.t)
  }

  /** After the header checks: the document row, then the reconciliation; an exception escaping it is a 500. */
  function Register(t: Tables, user: string, json: seq<Field>, date: Date, fetchFails: bool, fail: (nat, Call) -> bool): (Response, Tables) {
    Respond(t.nextId, Reconcile(WithDocumento(t, user, date), json, t.nextId, fetchFails, fail))
  }

  /** The endpoint against the store. */
  method CadastrarChamada(db: Store, user: string, fileEmpty: bool, extraction: Option<seq<Field>>, parseDate: string -> Option<Date>,
                          insertFails: bool, fetchFails: bool, fail: (nat, Call) -> bool) returns (resp: Response)
    requires db.Valid()
    modifies db
    ensures db.Valid()
    ensures (resp, db.State()) == Entrada(old(db.State()), user, fileEmpty, extraction, parseDate, insertFails, fetchFails, fail)
  {
    var header := ReadHeader(fileEmpty, extraction, parseDate);
    if header.Err? {
      return header.error;
    }
    if insertFails {
      return Failed(500);
    }
    resp := RegistrarEntrega(db, user, header.value.0, header.value.1, fetchFails, fail);
  }

  /** The document insert, known to succeed, then the reconciliation. */
  method RegistrarEntrega(db: Store, user: string, json: seq<Field>, date: Date, fetchFails: bool, fail: (nat, Call) -> bool)
    returns (resp: Response)
    requires db.Valid()
    modifies db
    ensures db.Valid()
    ensures (resp, db.State()) == Register(old(db.State()), user, json, date, fetchFails, fail)
  {
    ghost var t := db.State();
    var doc := db.InsertDocumento(user, date, false);
    assert db.State() == WithDocumento(t, user, date) && doc.data == t.nextId;
    var counts := CadastrarRevistasDb(db, json, doc.data, fetchFails, fail);
    ghost var o := Outcome(counts, db.State());
    assert o == Reconcile(WithDocumento(t, user, date), json, t.nextId, fetchFails, fail);
    if counts.Ok? {
      resp := Created(doc.data, counts.value.0, counts.value.1);
    } else {
      resp := Failed(500);
    }
    assert (resp, db.State()) == Respond(t.nextId, o);
  }

  /**
   * Every rejection by the header checks leaves the tables as they were;
   * a created response means one document row was added with the id it
   * reports.
   */
  lemma EntradaGuarantees(t: Tables, user: string, fileEmpty: bool, extraction: Option<seq<Field>>, parseDate: string -> Option<Date>,
                          insertFails: bool, fetchFails: bool, fail: (nat, Call) -> bool, res: (Response, Tables))
    requires ValidTables(t) && res == Entrada(t, user, fileEmpty, extraction, parseDate, insertFails, fetchFails, fail)
    ensures ValidTables(res.1)
    ensures ReadHeader(fileEmpty, extraction, parseDate).Err? ==> res.1 == t
    ensures (res.0.Failed? && res.0.code == 400) || res.0.MissingFields? ==> res.1 == t
    ensures res.0.Created? ==> ReadHeader(fileEmpty, extraction, parseDate).Ok?
    ensures res.0.Created? ==> |res.1.documentos| == |t.documentos| + 1 && res.1.documentos[|t.documentos|].id == res.0.idEntrega
  {
    var h := ReadHeader(fileEmpty, extraction, parseDate);
    if h.Ok? && !insertFails {
      RegisterGuarantees(t, user, h.value.0, h.value.1, fetchFails, fail, res);
    }
  }

  /**
   * A registration only ever answers 201 or 500; it keeps the tables valid
   * and, when it answers 201, the document it reports is the one row it added.
   */
  lemma RegisterGuarantees(t: Tables, user: string, json: seq<Field>, date: Date, fetchFails: bool, fail: (nat, Call) -> bool,
                           res: (Response, Tables))
    requires ValidTables(t) && res == Register(t, user, json, date, fetchFails, fail)
    ensures ValidTables(res.1)
    ensures res.0.Created? || res.0 == Failed(500)
    ensures |res.1.documentos| == |t.documentos| + 1 && res.1.documentos[|t.documentos|] == Documento(t.nextId, user, date)
    ensures res.0.Created? ==> res.0.idEntrega == t.nextId
  {
    var t1 := WithDocumento(t, user, date);
    var o := Reconcile(t1, json, t.nextId, fetchFails, fail);
    ReconcileGuarantees(t1, json, t.nextId, fetchFails, fail, o);
    assert res == Respond(t.nextId, o);
  }
}
