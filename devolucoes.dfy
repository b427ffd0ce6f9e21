/**
 * Return reconciliation: every line item of a return slip is tied to the
 * catalog row with the same (name, edition) key, or to a "legacy" row
 * created for it with stock 0; each resolved item gets one association
 * row carrying the quantity to return. Stock is never touched. A store
 * failure aborts the rest of the slip, keeping what was already written.
 */
module Devolucoes {
  import opened Wrappers
  import opened PyText
  import opened PyJson
  import opened Catalog

  /** How one element of the "revistas" list is read before the lookup. */
  datatype Item =
    | Crash                                             // not an object, or an OverflowError: the slip aborts
    | Skip                                              // blank name, or an edition `int()` rejects
    | Ready(nome: string, edicao: Option<int>, codigo: Option<string>, qtd: Value, data: Value)

  /** A barcode as it reaches the text column: null stays null, anything else is its text. */
  function Barcode(v: Value): Option<string> {
    match v
    case Null => None
    case Str(s) => Some(s)
    case _ => Some(PyStr(v))
  }

  /**
   * The item's lookup key: the stripped, lower-cased name and the edition,
   * a null edition counting as 0. It is also the key of the legacy row
   * created for the item, so a later copy of the item finds that row.
   */
  function ItemKey(it: Item): Key
    requires it.Ready?
  {
    Key(NameKey(it.nome), EditionTag(it.edicao, true))
  }

  /**
   * The name check strips `str(item.get("nome", ""))`; the edition must
   * pass `int()` unless it is null or missing. An OverflowError there is
   * no ValueError or TypeError, so it aborts the slip. The name is kept
   * unstripped, as it is inserted.
   */
  function ReadItem(f: seq<Field>): Item {
    var nome := PyStr(GetOr(f, "nome", Str("")));
    var ev := GetOr(f, "numero_edicao", Null);
    if Strip(nome) == "" then Skip
    else if IntOverflows(ev) then Crash
    else if ev != Null && PyInt(ev).None? then Skip
    else
      Ready(nome, if ev == Null then None else PyInt(ev),
            Barcode(GetOr(f, "codigo_barras", Null)), GetOr(f, "qtd_estoque", Int(0)), GetOr(f, "data_entrega", Null))
  }

  /**
   * When an item aborts, is skipped or is ready: a ready item has a name
   * and, unless its edition is null, the edition `int()` reads.
   */
  lemma ReadItemKeys(f: seq<Field>)
    ensures ReadItem(f).Crash? <==>
      Strip(PyStr(GetOr(f, "nome", Str("")))) != "" && IntOverflows(GetOr(f, "numero_edicao", Null))
    ensures ReadItem(f).Skip? <==>
      || Strip(PyStr(GetOr(f, "nome", Str("")))) == ""
      || (&& !IntOverflows(GetOr(f, "numero_edicao", Null))
          && !IsNoneAt(f, "numero_edicao") && PyInt(GetOr(f, "numero_edicao", Null)).None?)
    ensures Strip(PyStr(GetOr(f, "nome", Str("")))) == "" ==> ReadItem(f) == Skip
    ensures ReadItem(f).Ready? ==>
      && Strip(ReadItem(f).nome) != "" && ReadItem(f).nome == PyStr(GetOr(f, "nome", Str("")))
      && ReadItem(f).qtd == GetOr(f, "qtd_estoque", Int(0))
      && (IsNoneAt(f, "numero_edicao") <==> ReadItem(f).edicao.None?)
      && (ReadItem(f).edicao.Some? ==> PyInt(GetOr(f, "numero_edicao", Null)) == ReadItem(f).edicao)
      && ItemKey(ReadItem(f)) == Key(Lower(Strip(ReadItem(f).nome)), Num(if ReadItem(f).edicao.Some? then ReadItem(f).edicao.value else 0))
  {
  }

  function Classify(v: Value): Item {
    if v.Obj? then ReadItem(v.fields) else Crash
  }

  /** Every element of the list, read. */
  function Classified(vs: seq<Value>): (its: seq<Item>)
    ensures |its| == |vs|
    ensures forall i :: 0 <= i < |vs| ==> its[i] == Classify(vs[i])
  {
    seq(|vs|, i requires 0 <= i < |vs| => Classify(vs[i]))
  }

  /** The state the loop carries: the tables, the lookup (key to id), the two counters and whether it aborted. */
  datatype Run = Run(t: Tables, lookup: map<Key, nat>, novas: nat, associadas: nat, aborted: bool)

  /** The ids of a lookup built from the catalog. */
  function Ids(m: map<Key, Known>): (r: map<Key, nat>)
    ensures forall k :: k in r <==> k in m
    ensures forall k :: k in r ==> r[k] == m[k].id
  {
    map k | k in m :: m[k].id
  }

  /** The catalog keyed with a null edition read as "0". */
  function Start(t: Tables): Run {
    Run(t, Ids(BuildLookup(t.revistas, true)), 0, 0, false)
  }

  /**
   * `inserir_revista_legada`: a row with stock 0, or, when its barcode is
   * taken (a unique violation), the first row with that barcode; None
   * when the slip aborts with 500.
   */
  function Legacy(t: Tables, k: nat, it: Item, fail: (nat, Call) -> bool): Option<(Tables, nat)>
    requires it.Ready?
  {
    if it.codigo.Some? && BarcodeTaken(t.revistas, it.codigo.value) then
      if fail(k, Select) then None
      else match FirstWithBarcode(t.revistas, it.codigo.value)
        case None => None
        case Some(i) => Some((t, t.revistas[i].id))
    else if fail(k, Insert) then None
    else Some((AddRevista(t, it.nome, it.edicao, it.codigo, 0), t.nextId))
  }

  /** `inserir_relacao_chamada`: both quantity columns get the item's `qtd_estoque`; a failure aborts. */
  function Associate(r: Run, k: nat, id: nat, it: Item, doc: nat, fail: (nat, Call) -> bool): Run
    requires it.Ready?
  {
    if fail(k, Link) then r.(aborted := true)
    else
      r.(t := r.t.(devolucaoLinks := r.t.devolucaoLinks + [DevolucaoLink(doc, id, it.data, it.qtd, it.qtd)]),
         associadas := r.associadas + 1)
  }

  /**
   * One iteration, for item number `k`. A matched item only lends its id;
   * an unmatched one gets a legacy row, counted and remembered under its key.
   * (The `if id_revista_final` test always passes: ids are positive.)
   */
  function Step(r: Run, k: nat, it: Item, doc: nat, fail: (nat, Call) -> bool): Run {
    if r.aborted then r
    else match it
      case Crash => r.(aborted := true)
      case Skip => r
      case Ready(_, _, _, _, _) => Resolve(r, k, it, doc, fail)
  }

  /** A ready item: the id its key names, or a legacy row's, then the association. */
  function Resolve(r: Run, k: nat, it: Item, doc: nat, fail: (nat, Call) -> bool): Run
    requires it.Ready?
  {
    var key := ItemKey(it);
    if key in r.lookup then Associate(r, k, r.lookup[key], it, doc, fail)
    else match Legacy(r.t, k, it, fail)
      case None => r.(aborted := true)
      case Some((t', id)) => Associate(r.(t := t', lookup := r.lookup[key := id], novas := r.novas + 1), k, id, it, doc, fail)
  }

  /** The loop over the items, item by item. */
  function Fold(r0: Run, items: seq<Item>, doc: nat, fail: (nat, Call) -> bool): Run
    decreases |items|
  {
    if items == [] then r0
    else
      var n := |items| - 1;
      Step(Fold(r0, items[..n], doc, fail), n, items[n], doc, fail)
  }

  /**
   * `_cadastrar_revistas_db` of the returns router: `doc` is the decoded
   * slip, `id` the return slip's id, `fetchFails` whether reading the
   * catalog fails, `fail` which store call fails for which item.
   */
  function Reconcile(t: Tables, doc: seq<Field>, id: nat, fetchFails: bool, fail: (nat, Call) -> bool): Outcome {
    var lista := GetOr(doc, "revistas", Arr([]));
    if !Truthy(lista) then Outcome(Ok((0, 0)), t)
    else if fetchFails || !lista.Arr? then Outcome(Err(Http(500)), t)
    else
      var r := Fold(Start(t), Classified(lista.items), id, fail);
      if r.aborted then Outcome(Err(Http(500)), r.t)
      else Outcome(Ok((r.novas, r.associadas)), r.t)
  }

  /**
   * What a reconciliation guarantees, even when it aborts: catalog rows
   * already there are untouched (stock included); every new row is a
   * legacy row with stock 0; one association row is appended per
   * counted item, each for this slip, an existing magazine and equal
   * received and to-return quantities; the other tables are untouched.
   * When it completes, every new row was counted and every counted
   * legacy row was associated.
   */
  lemma ReconcileGuarantees(t: Tables, doc: seq<Field>, id: nat, fetchFails: bool, fail: (nat, Call) -> bool, o: Outcome)
    requires ValidTables(t) && o == Reconcile(t, doc, id, fetchFails, fail)
    ensures ValidTables(o.t)
    ensures !Truthy(GetOr(doc, "revistas", Arr([]))) ==> o == Outcome(Ok((0, 0)), t)
    ensures |o.t.revistas| >= |t.revistas| && o.t.revistas[..|t.revistas|] == t.revistas
    ensures forall j :: |t.revistas| <= j < |o.t.revistas| ==> o.t.revistas[j].estoque == 0
    ensures |o.t.devolucaoLinks| >= |t.devolucaoLinks| && o.t.devolucaoLinks[..|t.devolucaoLinks|] == t.devolucaoLinks
    ensures forall i :: |t.devolucaoLinks| <= i < |o.t.devolucaoLinks| ==>
      o.t.devolucaoLinks[i].chamada == id && o.t.devolucaoLinks[i].qtdRecebida == o.t.devolucaoLinks[i].qtdADevolver &&
      HasRevista(o.t, o.t.devolucaoLinks[i].revista)
    ensures o.counts.Ok? ==>
      |o.t.devolucaoLinks| == |t.devolucaoLinks| + o.counts.value.1 &&
      |o.t.revistas| <= |t.revistas| + o.counts.value.0 && o.counts.value.0 <= o.counts.value.1
    ensures o.counts.Ok? && GetOr(doc, "revistas", Arr([])).Arr? ==> o.counts.value.1 <= |GetOr(doc, "revistas", Arr([])).items|
    ensures o.t.entregaLinks == t.entregaLinks && o.t.chamadas == t.chamadas && o.t.documentos == t.documentos
  {
    var lista := GetOr(doc, "revistas", Arr([]));
    if Truthy(lista) && !fetchFails && lista.Arr? {
      var items := Classified(lista.items);
      RunGuarantees(t, items, id, fail, Fold(Start(t), items, id, fail));
    }
  }

  /** The guarantees above for a run over read items. */
  lemma RunGuarantees(t: Tables, items: seq<Item>, id: nat, fail: (nat, Call) -> bool, r: Run)
    requires ValidTables(t) && r == Fold(Start(t), items, id, fail)
    ensures ValidTables(r.t)
    ensures |r.t.revistas| >= |t.revistas| && r.t.revistas[..|t.revistas|] == t.revistas
    ensures forall j :: |t.revistas| <= j < |r.t.revistas| ==> r.t.revistas[j].estoque == 0
    ensures |r.t.devolucaoLinks| == |t.devolucaoLinks| + r.associadas && r.t.devolucaoLinks[..|t.devolucaoLinks|] == t.devolucaoLinks
    ensures forall i :: |t.devolucaoLinks| <= i < |r.t.devolucaoLinks| ==>
      r.t.devolucaoLinks[i].chamada == id && r.t.devolucaoLinks[i].qtdRecebida == r.t.devolucaoLinks[i].qtdADevolver &&
      HasRevista(r.t, r.t.devolucaoLinks[i].revista)
    ensures |r.t.revistas| <= |t.revistas| + r.novas
    ensures !r.aborted ==> r.novas <= r.associadas
    ensures r.associadas <= |items|
    ensures r.t.entregaLinks == t.entregaLinks && r.t.chamadas == t.chamadas && r.t.documentos == t.documentos
  {
    StartInv(t, id);
    FoldInv(t, Start(t), items, id, fail);
    FoldCounts(Start(t), items, id, fail);
  }

  // ---------------------------------------------------------------------
  // What every iteration preserves
  // ---------------------------------------------------------------------

  /** The rows: old ones untouched, new ones legacy rows with stock 0, at most one per counted creation. */
  predicate RowsInv(t0: Tables, r: Run) {
    ValidTables(r.t) &&
    |t0.revistas| <= |r.t.revistas| <= |t0.revistas| + r.novas &&
    r.t.revistas[..|t0.revistas|] == t0.revistas &&
    (forall j :: |t0.revistas| <= j < |r.t.revistas| ==> r.t.revistas[j].estoque == 0) &&
    r.t.entregaLinks == t0.entregaLinks && r.t.chamadas == t0.chamadas && r.t.documentos == t0.documentos
  }

  /** The associations: one per counted item, each for this slip and a magazine that exists. */
  predicate LinksInv(t0: Tables, r: Run, doc: nat) {
    |r.t.devolucaoLinks| == |t0.devolucaoLinks| + r.associadas &&
    r.t.devolucaoLinks[..|t0.devolucaoLinks|] == t0.devolucaoLinks &&
    forall i :: |t0.devolucaoLinks| <= i < |r.t.devolucaoLinks| ==>
      r.t.devolucaoLinks[i].chamada == doc && r.t.devolucaoLinks[i].qtdRecebida == r.t.devolucaoLinks[i].qtdADevolver &&
      HasRevista(r.t, r.t.devolucaoLinks[i].revista)
  }

  /** The lookup names magazines that exist; until an abort, each creation was followed by its association. */
  predicate LookupInv(r: Run) {
    (forall k :: k in r.lookup ==> HasRevista(r.t, r.lookup[k])) &&
    (!r.aborted ==> r.novas <= r.associadas)
  }

  predicate Inv(t0: Tables, r: Run, doc: nat) {
    RowsInv(t0, r) && LinksInv(t0, r, doc) && LookupInv(r)
  }

  lemma StartInv(t: Tables, doc: nat)
    requires ValidTables(t)
    ensures Inv(t, Start(t), doc)
  {
    var m := BuildLookup(t.revistas, true);
    assert t.revistas[..|t.revistas|] == t.revistas;
    forall k | k in Start(t).lookup
      ensures HasRevista(t, Start(t).lookup[k])
    {
      LookupSound(t.revistas, true, k);
    }
  }

  /** Appending rows keeps every magazine that existed. */
  lemma HasRevistaGrows(t: Tables, t': Tables, id: nat)
    requires HasRevista(t, id) && |t'.revistas| >= |t.revistas| && t'.revistas[..|t.revistas|] == t.revistas
    ensures HasRevista(t', id)
  {
    var i :| 0 <= i < |t.revistas| && t.revistas[i].id == id;
    assert t'.revistas[i] == t.revistas[i];
  }

  /** The legacy step keeps the rows' invariant and yields an existing magazine. */
  lemma LegacyInv(t0: Tables, r: Run, k: nat, it: Item, fail: (nat, Call) -> bool)
    requires RowsInv(t0, r) && it.Ready? && Legacy(r.t, k, it, fail).Some?
    ensures var (t', id) := Legacy(r.t, k, it, fail).value;
      RowsInv(t0, r.(t := t', novas := r.novas + 1)) && HasRevista(t', id) &&
      |t'.revistas| >= |r.t.revistas| && t'.revistas[..|r.t.revistas|] == r.t.revistas &&
      t'.devolucaoLinks == r.t.devolucaoLinks
  {
    var (t', id) := Legacy(r.t, k, it, fail).value;
    if it.codigo.Some? && BarcodeTaken(r.t.revistas, it.codigo.value) {
      var i := FirstWithBarcode(r.t.revistas, it.codigo.value).value;
      assert t'.revistas[..|r.t.revistas|] == r.t.revistas;
    } else {
      var n := |r.t.revistas|;
      assert t'.revistas[n].id == id;
      assert t'.revistas[..n] == r.t.revistas;
      assert t'.revistas[..|t0.revistas|] == r.t.revistas[..|t0.revistas|];
    }
  }

  /** An association of an existing magazine restores the invariant, counting the item. */
  lemma AssociateInv(t0: Tables, r: Run, k: nat, id: nat, it: Item, doc: nat, fail: (nat, Call) -> bool)
    requires RowsInv(t0, r) && LinksInv(t0, r, doc) && HasRevista(r.t, id) && it.Ready?
    requires (forall k' :: k' in r.lookup ==> HasRevista(r.t, r.lookup[k'])) && r.novas <= r.associadas + 1
    ensures Inv(t0, Associate(r, k, id, it, doc, fail), doc)
  {
    var r' := Associate(r, k, id, it, doc, fail);
    if !fail(k, Link) {
      var ls := r.t.devolucaoLinks;
      assert r'.t.revistas == r.t.revistas;
      assert r'.t.devolucaoLinks[..|ls|] == ls;
      assert r'.t.devolucaoLinks[..|t0.devolucaoLinks|] == ls[..|t0.devolucaoLinks|];
      forall i | |t0.devolucaoLinks| <= i < |r'.t.devolucaoLinks|
        ensures HasRevista(r'.t, r'.t.devolucaoLinks[i].revista)
      {
        if i < |ls| {
          assert r'.t.devolucaoLinks[i] == ls[i];
        }
      }
    }
  }

  /** A matched item keeps the invariant. */
  lemma MatchedInv(t0: Tables, r: Run, k: nat, it: Item, doc: nat, fail: (nat, Call) -> bool)
    requires Inv(t0, r, doc) && !r.aborted && it.Ready? && ItemKey(it) in r.lookup
    ensures Inv(t0, Step(r, k, it, doc, fail), doc)
  {
    AssociateInv(t0, r, k, r.lookup[ItemKey(it)], it, doc, fail);
  }

  /** An unmatched item keeps the invariant, whether its legacy row is created, found again or fails. */
  lemma UnmatchedInv(t0: Tables, r: Run, k: nat, it: Item, doc: nat, fail: (nat, Call) -> bool)
    requires Inv(t0, r, doc) && !r.aborted && it.Ready? && ItemKey(it) !in r.lookup
    ensures Inv(t0, Step(r, k, it, doc, fail), doc)
  {
    var leg := Legacy(r.t, k, it, fail);
    if leg.Some? {
      var (t', id) := leg.value;
      var r1 := r.(t := t', lookup := r.lookup[ItemKey(it) := id], novas := r.novas + 1);
      AfterLegacy(t0, r, k, it, doc, fail);
      AssociateInv(t0, r1, k, id, it, doc, fail);
      assert Step(r, k, it, doc, fail) == Associate(r1, k, id, it, doc, fail);
    }
  }

  /** Between the legacy insert and the association: everything but the counters' order holds. */
  lemma AfterLegacy(t0: Tables, r: Run, k: nat, it: Item, doc: nat, fail: (nat, Call) -> bool)
    requires Inv(t0, r, doc) && !r.aborted && it.Ready? && ItemKey(it) !in r.lookup && Legacy(r.t, k, it, fail).Some?
    ensures var (t', id) := Legacy(r.t, k, it, fail).value;
      var r1 := r.(t := t', lookup := r.lookup[ItemKey(it) := id], novas := r.novas + 1);
      RowsInv(t0, r1) && LinksInv(t0, r1, doc) && HasRevista(t', id) &&
      (forall k' :: k' in r1.lookup ==> HasRevista(r1.t, r1.lookup[k'])) && r1.novas <= r1.associadas + 1
  {
    var (t', id) := Legacy(r.t, k, it, fail).value;
    var key := ItemKey(it);
    LegacyInv(t0, r, k, it, fail);
    var r1 := r.(t := t', lookup := r.lookup[key := id], novas := r.novas + 1);
    forall k' | k' in r1.lookup
      ensures HasRevista(t', r1.lookup[k'])
    {
      if k' != key {
        HasRevistaGrows(r.t, t', r.lookup[k']);
      }
    }
    forall i | |t0.devolucaoLinks| <= i < |t'.devolucaoLinks|
      ensures HasRevista(t', t'.devolucaoLinks[i].revista)
    {
      HasRevistaGrows(r.t, t', r.t.devolucaoLinks[i].revista);
    }
  }

  lemma StepInv(t0: Tables, r: Run, k: nat, it: Item, doc: nat, fail: (nat, Call) -> bool)
    requires Inv(t0, r, doc)
    ensures Inv(t0, Step(r, k, it, doc, fail), doc)
  {
    if !r.aborted && it.Ready? {
      if ItemKey(it) in r.lookup {
        MatchedInv(t0, r, k, it, doc, fail);
      } else {
        UnmatchedInv(t0, r, k, it, doc, fail);
      }
    }
  }

  lemma {:induction false} FoldInv(t0: Tables, r0: Run, items: seq<Item>, doc: nat, fail: (nat, Call) -> bool)
    requires Inv(t0, r0, doc)
    ensures Inv(t0, Fold(r0, items, doc, fail), doc)
    decreases |items|
  {
    if items != [] {
      var n := |items| - 1;
      FoldInv(t0, r0, items[..n], doc, fail);
      StepInv(t0, Fold(r0, items[..n], doc, fail), n, items[n], doc, fail);
    }
  }

  /** Each item is associated at most once. */
  lemma {:induction false} FoldCounts(r0: Run, items: seq<Item>, doc: nat, fail: (nat, Call) -> bool)
    ensures r0.associadas <= Fold(r0, items, doc, fail).associadas <= r0.associadas + |items|
    decreases |items|
  {
    if items != [] {
      var n := |items| - 1;
      FoldCounts(r0, items[..n], doc, fail);
      StepCounts(Fold(r0, items[..n], doc, fail), n, items[n], doc, fail);
    }
  }

  lemma StepCounts(r: Run, k: nat, it: Item, doc: nat, fail: (nat, Call) -> bool)
    ensures r.associadas <= Step(r, k, it, doc, fail).associadas <= r.associadas + 1
  {
    if !r.aborted && it.Ready? && ItemKey(it) !in r.lookup && Legacy(r.t, k, it, fail).Some? {
      var (t', id) := Legacy(r.t, k, it, fail).value;
      assert Step(r, k, it, doc, fail) == Associate(r.(t := t', lookup := r.lookup[ItemKey(it) := id], novas := r.novas + 1), k, id, it, doc, fail);
    }
  }

  /** Once aborted, the remaining items change nothing. */
  lemma {:induction false} FoldAborted(r0: Run, items: seq<Item>, j: nat, doc: nat, fail: (nat, Call) -> bool)
    requires j <= |items| && Fold(r0, items[..j], doc, fail).aborted
    ensures Fold(r0, items, doc, fail) == Fold(r0, items[..j], doc, fail)
    decreases |items|
  {
    if j < |items| {
      var n := |items| - 1;
      assert items[..n][..j] == items[..j];
      FoldAborted(r0, items[..n], j, doc, fail);
    } else {
      assert items[..j] == items;
    }
  }

  /** Folding one more item is one more step. */
  lemma FoldSnoc(r0: Run, items: seq<Item>, n: nat, doc: nat, fail: (nat, Call) -> bool)
    requires n < |items|
    ensures Fold(r0, items[..n + 1], doc, fail) == Step(Fold(r0, items[..n], doc, fail), n, items[n], doc, fail)
  {
    assert items[..n + 1][..n] == items[..n];
  }

  // ---------------------------------------------------------------------
  // Single steps
  // ---------------------------------------------------------------------

  /**
   * A catalog row with a null edition is found by an item with the same
   * name and no edition: null editions are keyed as "0" on both sides.
   */
  lemma NullEditionMatches(rows: seq<Revista>, i: nat, it: Item)
    requires i < |rows| && Keyed(rows[i]) && rows[i].edicao.None?
    requires forall j :: i < j < |rows| && Keyed(rows[j]) ==> RowKey(rows[j], true) != RowKey(rows[i], true)
    requires it.Ready? && it.edicao.None? && NameKey(it.nome) == NameKey(rows[i].nome)
    ensures ItemKey(it) in Ids(BuildLookup(rows, true)) && Ids(BuildLookup(rows, true))[ItemKey(it)] == rows[i].id
  {
    LookupLastWins(rows, true, i);
  }

  /**
   * A matched item lends the id the lookup holds: no row is written, no
   * creation is counted, and one association follows unless it fails.
   */
  lemma MatchedItemKeepsCatalog(r: Run, k: nat, it: Item, doc: nat, fail: (nat, Call) -> bool)
    requires !r.aborted && it.Ready? && ItemKey(it) in r.lookup
    ensures var r' := Step(r, k, it, doc, fail);
      r'.t.revistas == r.t.revistas && r'.novas == r.novas && r'.lookup == r.lookup &&
      (fail(k, Link) ==> r'.aborted && r'.t == r.t) &&
      (!fail(k, Link) ==>
         && !r'.aborted && r'.associadas == r.associadas + 1
         && r'.t.devolucaoLinks == r.t.devolucaoLinks + [DevolucaoLink(doc, r.lookup[ItemKey(it)], it.data, it.qtd, it.qtd)])
  {
  }

  /**
   * An unmatched item whose barcode is free: a row with stock 0 is created
   * under the next id, counted, and remembered, so the same item again
   * later finds it and creates nothing more.
   */
  lemma LegacyRowCreatedOnce(r: Run, k: nat, it: Item, doc: nat, fail: (nat, Call) -> bool)
    requires !r.aborted && it.Ready? && ItemKey(it) !in r.lookup
    requires !(it.codigo.Some? && BarcodeTaken(r.t.revistas, it.codigo.value)) && !fail(k, Insert) && !fail(k, Link)
    ensures var r1 := Step(r, k, it, doc, fail);
      !r1.aborted && r1.novas == r.novas + 1 &&
      r1.t.revistas == r.t.revistas + [Revista(r.t.nextId, it.nome, None, it.edicao, it.codigo, 0)] &&
      ItemKey(it) in r1.lookup && r1.lookup[ItemKey(it)] == r.t.nextId &&
      var r2 := Step(r1, k + 1, it, doc, fail);
      r2.novas == r1.novas && r2.t.revistas == r1.t.revistas
  {
  }

  /**
   * An unmatched item whose barcode is already taken: the insert violates
   * the unique constraint, and the first row with that barcode is used
   * instead; no row is created, yet the creation is counted.
   */
  lemma UniqueViolationReselects(r: Run, k: nat, it: Item, doc: nat, fail: (nat, Call) -> bool)
    requires !r.aborted && it.Ready? && ItemKey(it) !in r.lookup
    requires it.codigo.Some? && BarcodeTaken(r.t.revistas, it.codigo.value) && !fail(k, Select)
    ensures var r' := Step(r, k, it, doc, fail); var i := FirstWithBarcode(r.t.revistas, it.codigo.value).value;
      r'.t.revistas == r.t.revistas && r'.novas == r.novas + 1 && r'.lookup == r.lookup[ItemKey(it) := r.t.revistas[i].id] &&
      (!fail(k, Link) ==> r'.t.devolucaoLinks == r.t.devolucaoLinks + [DevolucaoLink(doc, r.t.revistas[i].id, it.data, it.qtd, it.qtd)])
  {
  }

  /** Any other failed insert, a failed re-select or a failed association aborts the slip. */
  lemma FailureAborts(r: Run, k: nat, it: Item, doc: nat, fail: (nat, Call) -> bool)
    requires !r.aborted && it.Ready?
    requires
      || (ItemKey(it) !in r.lookup && !(it.codigo.Some? && BarcodeTaken(r.t.revistas, it.codigo.value)) && fail(k, Insert))
      || (ItemKey(it) !in r.lookup && it.codigo.Some? && BarcodeTaken(r.t.revistas, it.codigo.value) && fail(k, Select))
      || fail(k, Link)
    ensures Step(r, k, it, doc, fail).aborted
  {
  }

  /** An item that is blank, or whose edition `int()` rejects with a ValueError or TypeError, changes nothing. */
  lemma SkippedItemChangesNothing(r: Run, k: nat, f: seq<Field>, doc: nat, fail: (nat, Call) -> bool)
    requires
      || Strip(PyStr(GetOr(f, "nome", Str("")))) == ""
      || (!IsNoneAt(f, "numero_edicao") && PyInt(GetOr(f, "numero_edicao", Null)).None?
          && !IntOverflows(GetOr(f, "numero_edicao", Null)))
    ensures Step(r, k, Classify(Obj(f)), doc, fail) == r
  {
    assert Classify(Obj(f)) == Skip;
  }

  // ---------------------------------------------------------------------
  // The reconciliation against the store
  // ---------------------------------------------------------------------

  /** `inserir_revista_legada` against the store. */
  method InserirRevistaLegada(db: Store, it: Item, k: nat, fail: (nat, Call) -> bool) returns (id: Option<nat>)
    requires db.Valid() && it.Ready?
    modifies db
    ensures db.Valid()
    ensures Legacy(old(db.State()), k, it, fail) == if id.None? then None else Some((db.State(), id.value))
    ensures id.None? ==> db.State() == old(db.State())
  {
    var res := db.InsertRevista(it.nome, it.edicao, it.codigo, 0, fail(k, Insert));
    match res
    case Inserted(n) =>
      return Some(n);
    case InsertFailed =>
      return None;
    case UniqueViolation =>
      var found := db.SelectByBarcode(it.codigo.value, fail(k, Select));
      if found.Reply? && found.data.Some? {
        return Some(found.data.value);
      }
      return None;
  }

  /** The body of the loop, for item number `k`. */
  method ApplyItem(db: Store, lookup: map<Key, nat>, novas: nat, associadas: nat, it: Item, k: nat, doc: nat, fail: (nat, Call) -> bool)
    returns (aborted: bool, lookup': map<Key, nat>, novas': nat, associadas': nat)
    requires db.Valid()
    modifies db
    ensures db.Valid()
    ensures Run(db.State(), lookup', novas', associadas', aborted) == Step(Run(old(db.State()), lookup, novas, associadas, false), k, it, doc, fail)
  {
    aborted, lookup', novas', associadas' := false, lookup, novas, associadas;
    if it.Crash? {
      aborted := true;
    } else if it.Ready? {
      aborted, lookup', novas', associadas' := ResolveItem(db, lookup, novas, associadas, it, k, doc, fail);
    }
  }

  /** A ready item against the store. */
  method ResolveItem(db: Store, lookup: map<Key, nat>, novas: nat, associadas: nat, it: Item, k: nat, doc: nat, fail: (nat, Call) -> bool)
    returns (aborted: bool, lookup': map<Key, nat>, novas': nat, associadas': nat)
    requires db.Valid() && it.Ready?
    modifies db
    ensures db.Valid()
    ensures Run(db.State(), lookup', novas', associadas', aborted) == Resolve(Run(old(db.State()), lookup, novas, associadas, false), k, it, doc, fail)
  {
    aborted, lookup', novas', associadas' := false, lookup, novas, associadas;
    var key := ItemKey(it);
    var id: nat;
    if key in lookup {
      id := lookup[key];
    } else {
      var created := InserirRevistaLegada(db, it, k, fail);
      if created.None? {
        return true, lookup', novas', associadas';
      }
      id := created.value;
      lookup' := lookup[key := id];
      novas' := novas + 1;
    }
    var ok := db.InsertDevolucaoLink(DevolucaoLink(doc, id, it.data, it.qtd, it.qtd), fail(k, Link));
    if !ok {
      return true, lookup', novas', associadas';
    }
    associadas' := associadas' + 1;
  }

  /** The `for` loop over the items; it stops at the first abort. */
  method ProcessItems(db: Store, vs: seq<Value>, lookup0: map<Key, nat>, doc: nat, fail: (nat, Call) -> bool)
    returns (aborted: bool, lookup: map<Key, nat>, novas: nat, associadas: nat)
    requires db.Valid()
    modifies db
    ensures db.Valid()
    ensures Run(db.State(), lookup, novas, associadas, aborted) == Fold(Run(old(db.State()), lookup0, 0, 0, false), Classified(vs), doc, fail)
  {
    ghost var r0 := Run(db.State(), lookup0, 0, 0, false);
    ghost var items := Classified(vs);
    lookup, novas, associadas, aborted := lookup0, 0, 0, false;
    var i := 0;
    assert items[..0] == [];
    while i < |vs|
      invariant 0 <= i <= |vs|
      invariant db.Valid()
      invariant Fold(r0, items[..i], doc, fail) == Run(db.State(), lookup, novas, associadas, false)
    {
      FoldSnoc(r0, items, i, doc, fail);
      aborted, lookup, novas, associadas := ApplyItem(db, lookup, novas, associadas, Classify(vs[i]), i, doc, fail);
      if aborted {
        FoldAborted(r0, items, i + 1, doc, fail);
        return;
      }
      i := i + 1;
    }
    assert items[..i] == items;
  }

  /** `_cadastrar_revistas_db` against the store: the same result and tables as `Reconcile`. */
  method CadastrarRevistasDb(db: Store, doc: seq<Field>, id: nat, fetchFails: bool, fail: (nat, Call) -> bool)
    returns (counts: Result<(nat, nat), HttpError>)
    requires db.Valid()
    modifies db
    ensures db.Valid()
    ensures Outcome(counts, db.State()) == Reconcile(old(db.State()), doc, id, fetchFails, fail)
  {
    var lista := GetOr(doc, "revistas", Arr([]));
    if !Truthy(lista) {
      return Ok((0, 0));
    }
    if fetchFails || !lista.Arr? {
      return Err(Http(500));
    }
    var known := LoadLookup(db.revistas, true);
    var lookup := map k | k in known :: known[k].id;
    var aborted, lookup', novas, associadas := ProcessItems(db, lista.items, lookup, id, fail);
    if aborted {
      return Err(Http(500));
    }
    return Ok((novas, associadas));
  }

  // ---------------------------------------------------------------------
  // The upload endpoint
  // ---------------------------------------------------------------------

  /** What the local pre-check reads from the upload: the deadline, a ValueError, or another exception. */
  datatype LocalDate = LocalDate(d: Date) | Unreadable | LocalFailure

  /** The response of `cadastrar_devolucao`. */
  datatype Response = Created(idDevolucao: nat, legadas: nat, associadas: nat) | Failed(code: nat)

  /** The user already has a return slip with this deadline. */
  predicate Duplicate(rows: seq<Chamada>, user: string, d: Date) {
    exists i :: 0 <= i < |rows| && rows[i].usuario == user && rows[i].dataLimite == d
  }

  /**
   * The checks made before the costly extraction: an empty upload, an
   * unreadable one (400), a failing local read or duplicate query (500),
   * a duplicate (409). `dupFails` says whether the duplicate query raises.
   */
  function PreCheck(t: Tables, user: string, fileEmpty: bool, local: LocalDate, dupFails: bool): Option<Response> {
    if fileEmpty then Some(Failed(400))
    else match local
      case Unreadable => Some(Failed(400))
      case LocalFailure => Some(Failed(500))
      case LocalDate(d) =>
        if dupFails then Some(Failed(500))
        else if Duplicate(t.chamadas, user, d) then Some(Failed(409))
        else None
  }

  /**
   * The checks on the extracted slip: `extraction` is the decoded slip
   * (None when the extraction raises), `parseDate` is `%Y-%m-%d` parsing.
   * On success, the slip and its deadline.
   */
  function ReadSlip(extraction: Option<seq<Field>>, parseDate: string -> Option<Date>): Result<(seq<Field>, Date), Response> {
    if extraction.None? then Err(Failed(400))
    else
      var json := extraction.value;
      if !HasKey(json, "chamadasdevolucao") then Err(Failed(400))
      else
        var cd := GetOr(json, "chamadasdevolucao", Null);
        if cd == Null then Err(Failed(400))                    // KeyError
        else if !cd.Obj? then Err(Failed(500))                 // `cd.get` raises AttributeError
        else
          var dl := GetOr(cd.fields, "data_limite", Null);
          if !Truthy(dl) then Err(Failed(400))                 // KeyError
          else if !dl.Str? then Err(Failed(500))               // strptime raises TypeError
          else match parseDate(dl.s)
            case None => Err(Failed(400))                      // ValueError
            case Some(d) => Ok((json, d))
  }

  /**
   * `cadastrar_devolucao`: the pre-check, the extraction checks, the
   * slip insert (`insertFails` says whether it raises), then the
   * reconciliation. The new slip is open.
   */
  function Devolucao(t: Tables, user: string, fileEmpty: bool, local: LocalDate, dupFails: bool,
                     extraction: Option<seq<Field>>, parseDate: string -> Option<Date>,
                     insertFails: bool, fetchFails: bool, fail: (nat, Call) -> bool): (Response, Tables)
  {
    match PreCheck(t, user, fileEmpty, local, dupFails)
    case Some(resp) => (resp, t)
    case None =>
      match ReadSlip(extraction, parseDate)
      case Err(resp) => (resp, t)
      case Ok((json, d)) =>
        if insertFails then (Failed(500), t)
        else Register(t, user, json, d, fetchFails, fail)
  }

  /** The tables once the open return slip is inserted. */
  function WithChamada(t: Tables, user: string, d: Date): Tables {
    t.(chamadas := t.chamadas + [Chamada(t.nextId, user, d, Aberta)], nextId := t.nextId + 1)
  }

  /** The answer for slip `id`, given how its reconciliation ended; an abort is a 500 and the slip stays. */
  function Respond(id: nat, o: Outcome): (Response, Tables) {
    match o.counts
    case Ok((novas, associadas)) => (Created(id, novas, associadas), o.t)
    case Err(_) => (Failed(500), o.t)
  }

  function Register(t: Tables, user: string, json: seq<Field>, d: Date, fetchFails: bool, fail: (nat, Call) -> bool): (Response, Tables) {
    Respond(t.nextId, Reconcile(WithChamada(t, user, d), json, t.nextId, fetchFails, fail))
  }

  /**
   * A duplicate is rejected with 409 before the extraction runs: the
   * answer and the tables do not depend on anything the extraction or
   * the later steps would produce.
   */
  lemma DuplicateRejectedBeforeExtraction(t: Tables, user: string, d: Date,
                                          extraction: Option<seq<Field>>, parseDate: string -> Option<Date>,
                                          insertFails: bool, fetchFails: bool, fail: (nat, Call) -> bool)
    requires Duplicate(t.chamadas, user, d)
    ensures Devolucao(t, user, false, LocalDate(d), false, extraction, parseDate, insertFails, fetchFails, fail) == (Failed(409), t)
  {
  }

  /**
   * Every rejection before the reconciliation leaves the tables as they
   * were; a 409 means a duplicate by the locally read deadline; a created
   * slip is one open slip of this user with the extracted deadline,
   * under the id it reports, and no duplicate existed by the local
   * deadline.
   */
  lemma DevolucaoGuarantees(t: Tables, user: string, fileEmpty: bool, local: LocalDate, dupFails: bool,
                            extraction: Option<seq<Field>>, parseDate: string -> Option<Date>,
                            insertFails: bool, fetchFails: bool, fail: (nat, Call) -> bool, res: (Response, Tables))
    requires ValidTables(t) && res == Devolucao(t, user, fileEmpty, local, dupFails, extraction, parseDate, insertFails, fetchFails, fail)
    ensures ValidTables(res.1)
    ensures res.0 == Failed(400) || res.0 == Failed(409) ==> res.1 == t
    ensures res.0 == Failed(409) <==> !fileEmpty && local.LocalDate? && !dupFails && Duplicate(t.chamadas, user, local.d)
    ensures res.0.Created? ==>
      && !fileEmpty && local.LocalDate? && !Duplicate(t.chamadas, user, local.d)
      && ReadSlip(extraction, parseDate).Ok? && res.0.idDevolucao == t.nextId
      && |res.1.chamadas| == |t.chamadas| + 1
      && res.1.chamadas[|t.chamadas|] == Chamada(t.nextId, user, ReadSlip(extraction, parseDate).value.1, Aberta)
  {
    if PreCheck(t, user, fileEmpty, local, dupFails).None? {
      var h := ReadSlip(extraction, parseDate);
      if h.Ok? && !insertFails {
        RegisterGuarantees(t, user, h.value.0, h.value.1, fetchFails, fail, res);
      }
    }
  }

  /** A registration answers 201 or 500, keeps the tables valid, and always leaves the open slip in place. */
  lemma RegisterGuarantees(t: Tables, user: string, json: seq<Field>, d: Date, fetchFails: bool, fail: (nat, Call) -> bool,
                           res: (Response, Tables))
    requires ValidTables(t) && res == Register(t, user, json, d, fetchFails, fail)
    ensures ValidTables(res.1)
    ensures res.0.Created? || res.0 == Failed(500)
    ensures |res.1.chamadas| == |t.chamadas| + 1 && res.1.chamadas[|t.chamadas|] == Chamada(t.nextId, user, d, Aberta)
    ensures res.0.Created? ==> res.0.idDevolucao == t.nextId
    ensures |res.1.revistas| >= |t.revistas| && res.1.revistas[..|t.revistas|] == t.revistas
  {
    var t1 := WithChamada(t, user, d);
    var o := Reconcile(t1, json, t.nextId, fetchFails, fail);
    ReconcileGuarantees(t1, json, t.nextId, fetchFails, fail, o);
    assert res == Respond(t.nextId, o);
  }

  /** `cadastrar_devolucao` against the store. */
  method CadastrarDevolucao(db: Store, user: string, fileEmpty: bool, local: LocalDate, dupFails: bool,
                            extraction: Option<seq<Field>>, parseDate: string -> Option<Date>,
                            insertFails: bool, fetchFails: bool, fail: (nat, Call) -> bool) returns (resp: Response)
    requires db.Valid()
    modifies db
    ensures db.Valid()
    ensures (resp, db.State()) == Devolucao(old(db.State()), user, fileEmpty, local, dupFails, extraction, parseDate, insertFails, fetchFails, fail)
  {
    if fileEmpty || local.Unreadable? {
      return Failed(400);
    }
    if local.LocalFailure? {
      return Failed(500);
    }
    var dup := db.ExistsChamada(user, local.d, dupFails);
    if dup.Failure? {
      return Failed(500);
    }
    if dup.data {
      return Failed(409);
    }
    var h := ReadSlip(extraction, parseDate);
    if h.Err? {
      return h.error;
    }
    if insertFails {
      return Failed(500);
    }
    resp := RegistrarDevolucao(db, user, h.value.0, h.value.1, fetchFails, fail);
  }

  /** The slip insert and the reconciliation against the store. */
  method RegistrarDevolucao(db: Store, user: string, json: seq<Field>, d: Date, fetchFails: bool, fail: (nat, Call) -> bool)
    returns (resp: Response)
    requires db.Valid()
    modifies db
    ensures db.Valid()
    ensures (resp, db.State()) == Register(old(db.State()), user, json, d, fetchFails, fail)
  {
    ghost var t := db.State();
    var created := db.InsertChamada(user, d, false);
    assert db.State() == WithChamada(t, user, d) && created.data == t.nextId;
    var counts := CadastrarRevistasDb(db, json, created.data, fetchFails, fail);
    ghost var o := Outcome(counts, db.State());
    assert o == Reconcile(WithChamada(t, user, d), json, t.nextId, fetchFails, fail);
    if counts.Ok? {
      resp := Created(created.data, counts.value.0, counts.value.1);
    } else {
      resp := Failed(500);
    }
    assert (resp, db.State()) == Respond(t.nextId, o);
  }

  // ---------------------------------------------------------------------
  // Confirmation
  // ---------------------------------------------------------------------

  /**
   * `confirmar_devolucao`: ids below 1 are refused by the path
   * validation (422); otherwise every slip with this id and owner is
   * closed, whatever its status, and 404 answers when none matched.
   * `failed` says whether the update raises.
   */
  function Confirmar(t: Tables, id: int, user: string, failed: bool): (nat, Tables) {
    if id < 1 then (422, t)
    else if failed then (500, t)
    else (if Owns(t.chamadas, id, user) then 200 else 404, t.(chamadas := CloseOwned(t.chamadas, id, user)))
  }

  /**
   * Confirmation answers 200 exactly when the user owns the slip; it
   * closes that slip and changes nothing else; every other answer leaves
   * the tables as they were.
   */
  lemma ConfirmarGuarantees(t: Tables, id: int, user: string, failed: bool)
    ensures var (code, t') := Confirmar(t, id, user, failed);
      && (code == 200 <==> id >= 1 && !failed && Owns(t.chamadas, id, user))
      && (code != 200 ==> t' == t)
      && t'.revistas == t.revistas && t'.devolucaoLinks == t.devolucaoLinks && |t'.chamadas| == |t.chamadas|
      && (forall i :: 0 <= i < |t.chamadas| ==>
            t'.chamadas[i] == if code == 200 && t.chamadas[i].id == id && t.chamadas[i].usuario == user
                              then t.chamadas[i].(status := Fechada) else t.chamadas[i])
  {
    if id >= 1 && !failed && !Owns(t.chamadas, id, user) {
      assert CloseOwned(t.chamadas, id, user) == t.chamadas;
    }
  }

  /** Confirming a slip that is already closed succeeds again and changes nothing more. */
  lemma ConfirmarTwice(t: Tables, id: int, user: string)
    requires Confirmar(t, id, user, false).0 == 200
    ensures var t1 := Confirmar(t, id, user, false).1;
      Confirmar(t1, id, user, false) == (200, t1)
  {
    var t1 := Confirmar(t, id, user, false).1;
    var i :| 0 <= i < |t.chamadas| && t.chamadas[i].id == id && t.chamadas[i].usuario == user;
    assert t1.chamadas[i].id == id && t1.chamadas[i].usuario == user;
    assert CloseOwned(t1.chamadas, id, user) == t1.chamadas;
  }

  /** `confirmar_devolucao` against the store. */
  method ConfirmarDevolucao(db: Store, id: int, user: string, failed: bool) returns (code: nat)
    requires db.Valid()
    modifies db
    ensures db.Valid()
    ensures (code, db.State()) == Confirmar(old(db.State()), id, user, failed)
  {
    if id < 1 {
      return 422;
    }
    var r := db.CloseChamada(id, user, failed);
    if r.Failure? {
      return 500;
    }
    code := if r.data then 200 else 404;
  }
}
