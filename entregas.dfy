/**
 * Delivery reconciliation, fuzzy variant: each line item of a delivery
 * note is compared with a snapshot of the catalog taken before the loop.
 * Only entries with the same edition and the same premium class are
 * compared, and the first one whose name scores at least 95 is taken: its
 * stock grows by the delivered quantity. An item that matches nothing
 * creates a row, which the snapshot does not see. Any store failure ends
 * the whole note with a 500, keeping what was already written.
 */
module Entregas {
  import opened Wrappers
  import opened PyText
  import opened PyJson
  import opened Catalog
  import opened Normalize
  import opened Seqs
  import Entradas

  /** How one element of the "revistas" list is read before the scan. */
  datatype Item =
    | Crash                                   // not an object, or an OverflowError: raises outside the handled errors
    | Skip                                    // a conversion raised ValueError/TypeError, or the name is blank
    | Ready(nome: string, edicao: int, qtd: int)

  /**
   * `int()` raises OverflowError, which the loop does not catch: on the
   * edition, or, once the edition has been read, on the quantity.
   */
  predicate Overflows(f: seq<Field>) {
    var ev := GetOr(f, "numero_edicao", Int(0));
    IntOverflows(ev) || (PyInt(ev).Some? && IntOverflows(GetOr(f, "qtd_estoque", Null)))
  }

  /**
   * The name is `str(item.get("nome", ""))` stripped; a missing edition
   * is 0 but an explicit null makes `int` raise; the quantity is
   * `int(qtd or 0)`, not clamped; the cover price must read as a float.
   * All conversions run before the blank-name check, in the order
   * edition, quantity, price; an OverflowError escapes the loop and any
   * other failure skips the item.
   */
  function ReadItem(f: seq<Field>): (r: Item)
    ensures r.Crash? <==> Overflows(f)
    ensures r.Skip? <==>
      && !Overflows(f)
      && (|| Strip(PyStr(GetOr(f, "nome", Str("")))) == ""
          || PyInt(GetOr(f, "numero_edicao", Int(0))).None?
          || IntOrZero(GetOr(f, "qtd_estoque", Null)).None?
          || !PriceParses(GetOr(f, "preco_capa", Str("0.0"))))
    ensures r.Ready? ==> r.nome != "" && r.nome == Strip(PyStr(GetOr(f, "nome", Str(""))))
    ensures r.Ready? ==> Some(r.edicao) == PyInt(GetOr(f, "numero_edicao", Int(0)))
    ensures r.Ready? ==> Some(r.qtd) == IntOrZero(GetOr(f, "qtd_estoque", Null))
    ensures Get(f, "numero_edicao") == Some(Null) ==> r == Skip
    ensures r.Ready? && !HasKey(f, "numero_edicao") ==> r.edicao == 0
  {
    var nome := Strip(PyStr(GetOr(f, "nome", Str(""))));
    var ev := GetOr(f, "numero_edicao", Int(0));
    var qv := GetOr(f, "qtd_estoque", Null);
    var edicao := PyInt(ev);
    var qtd := IntOrZero(qv);
    if IntOverflows(ev) then Crash
    else if edicao.None? then Skip
    else if IntOverflows(qv) then Crash
    else if qtd.None? || !PriceParses(GetOr(f, "preco_capa", Str("0.0"))) || nome == "" then Skip
    else Ready(nome, edicao.value, qtd.value)
  }

  function Classify(v: Value): (r: Item)
    ensures r.Crash? <==> !v.Obj? || Overflows(v.fields)
  {
    if v.Obj? then ReadItem(v.fields) else Crash
  }

  // ---------------------------------------------------------------------
  // Names and the scan
  // ---------------------------------------------------------------------

  /** The markers of a premium edition. */
  const SUFIXOS: seq<string> := ["c.p dura", "c.p. dura", "capa dura", "deluxe"]

  /** `_normalizar_nome`: lower-cased, then stripped. */
  function Normalizar(nome: string): string {
    Strip(Lower(nome))
  }

  /** `_tem_sufixo`: some marker occurs anywhere in the lower-cased name. */
  predicate TemSufixo(nome: string) {
    exists i :: 0 <= i < |SUFIXOS| && Contains(Lower(nome), SUFIXOS[i])
  }

  /** `sub in s` holds exactly when `sub` occurs at some position of `s`. */
  lemma ContainsAt(s: string, sub: string, i: nat)
    requires OccursAt(s, sub, i)
    ensures Contains(s, sub)
  {
  }

  /** Lower-casing works character by character, so it distributes over concatenation. */
  lemma LowerConcat(a: string, b: string)
    ensures Lower(a + b) == Lower(a) + Lower(b)
  {
    assert forall i :: 0 <= i < |a + b| ==> Lower(a + b)[i] == (Lower(a) + Lower(b))[i];
  }

  /**
   * A premium marker counts wherever it sits: whatever is written before
   * or after a premium name, the result is premium too.
   */
  lemma PremiumAnywhere(p: string, nome: string, s: string)
    requires TemSufixo(nome)
    ensures TemSufixo(p + nome + s)
  {
    var i :| 0 <= i < |SUFIXOS| && Contains(Lower(nome), SUFIXOS[i]);
    var sub := SUFIXOS[i];
    var x := Lower(nome);
    var j := Find(x, sub, 0).value;
    LowerConcat(p + nome, s);
    LowerConcat(p, nome);
    var y := Lower(p + nome + s);
    assert y == Lower(p) + x + Lower(s);
    assert y[|p| + j..|p| + j + |sub|] == x[j..j + |sub|];
    ContainsAt(y, sub, |p| + j);
  }

  /**
   * The edition filter compares `str(catalog edition)` with
   * `str(int(incoming edition))`: that is the two editions being equal,
   * and a catalog entry with a null edition ("None") never passes.
   */
  lemma EditionFilterIsEquality(e: Option<int>, n: int)
    ensures e == Some(n) <==> EditionText(e, "None") == IntToString(n)
  {
    TagMatchesText(e, false, n);
  }

  /** A catalog entry the scan compares with the item at all: same edition, same premium class. */
  predicate Comparable(rev: Revista, it: Item)
    requires it.Ready?
  {
    rev.edicao == Some(it.edicao) && TemSufixo(rev.nome) == TemSufixo(it.nome)
  }

  /** A comparable entry whose normalised name scores at least 95 against the item's. */
  predicate Matches(rev: Revista, it: Item, sim: (string, string) -> Score)
    requires it.Ready?
  {
    Comparable(rev, it) && sim(Normalizar(it.nome), Normalizar(rev.nome)) >= 95
  }

  /** The position of the first matching entry in snapshot order. */
  function FirstMatch(rows: seq<Revista>, it: Item, sim: (string, string) -> Score): (r: Option<nat>)
    requires it.Ready?
    ensures r.Some? ==> r.value < |rows| && Matches(rows[r.value], it, sim)
    ensures r.Some? ==> forall j :: 0 <= j < r.value ==> !Matches(rows[j], it, sim)
    ensures r.None? <==> forall j :: 0 <= j < |rows| ==> !Matches(rows[j], it, sim)
  {
    FirstWhere(rows, MatchesOf(it, sim))
  }

  function MatchesOf(it: Item, sim: (string, string) -> Score): Revista -> bool
    requires it.Ready?
  {
    rev => Matches(rev, it, sim)
  }

  lemma FirstMatchAt(rows: seq<Revista>, it: Item, sim: (string, string) -> Score, j: nat)
    requires it.Ready? && j < |rows| && Matches(rows[j], it, sim)
    requires forall i :: 0 <= i < j ==> !Matches(rows[i], it, sim)
    ensures FirstMatch(rows, it, sim) == Some(j)
  {
    FirstWhereAt(rows, MatchesOf(it, sim), j);
  }

  /** An entry of another edition or premium class, or one scoring under 95, extends the run of non-matching entries. */
  lemma Unmatched(rows: seq<Revista>, it: Item, sim: (string, string) -> Score, j: nat)
    requires it.Ready? && j < |rows|
    requires forall i :: 0 <= i < j ==> !Matches(rows[i], it, sim)
    requires rows[j].edicao != Some(it.edicao) || TemSufixo(rows[j].nome) != TemSufixo(it.nome) ||
      sim(Normalizar(it.nome), Normalizar(rows[j].nome)) < 95
    ensures forall i :: 0 <= i < j + 1 ==> !Matches(rows[i], it, sim)
  {
  }

  /** The inner `for` loop over the snapshot, with its `continue`s and its `break`. */
  method FindMatch(rows: seq<Revista>, it: Item, sim: (string, string) -> Score) returns (r: Option<nat>)
    requires it.Ready?
    ensures r == FirstMatch(rows, it, sim)
  {
    var nomeNorm := Normalizar(it.nome);
    var sufixo := TemSufixo(it.nome);
    var j := 0;
    while j < |rows|
      invariant 0 <= j <= |rows|
      invariant forall i :: 0 <= i < j ==> !Matches(rows[i], it, sim)
    {
      var rev := rows[j];
      if rev.edicao != Some(it.edicao) || TemSufixo(rev.nome) != sufixo {
        Unmatched(rows, it, sim, j);
        j := j + 1;
        continue;
      }
      if sim(nomeNorm, Normalizar(rev.nome)) >= 95 {
        FirstMatchAt(rows, it, sim, j);
        return Some(j);
      }
      Unmatched(rows, it, sim, j);
      j := j + 1;
    }
    return None;
  }

  /**
   * The first acceptable entry is taken, not the best: with two comparable
   * entries scoring 95 and 100, the one scoring 95 wins because it comes first.
   */
  lemma FirstNotBest(it: Item, a: Revista, b: Revista, sim: (string, string) -> Score)
    requires it.Ready? && Comparable(a, it) && Comparable(b, it)
    requires sim(Normalizar(it.nome), Normalizar(a.nome)) == 95 && sim(Normalizar(it.nome), Normalizar(b.nome)) == 100
    ensures FirstMatch([a, b], it, sim) == Some(0)
  {
  }

  /** A premium name and a plain one never match, whatever their similarity. */
  lemma PremiumNeverMatchesPlain(rows: seq<Revista>, it: Item, sim: (string, string) -> Score, j: nat)
    requires it.Ready? && j < |rows| && TemSufixo(rows[j].nome) != TemSufixo(it.nome)
    ensures FirstMatch(rows, it, sim) != Some(j)
  {
  }

  // ---------------------------------------------------------------------
  // The reconciliation
  // ---------------------------------------------------------------------

  /**
   * The state the loop carries: the tables, the catalog snapshot (whose
   * stocks it keeps up to date), the two counters, and whether a store
   * failure ended the loop.
   */
  datatype Run = Run(t: Tables, snapshot: seq<Revista>, inseridas: nat, atualizadas: nat, aborted: bool)

  function Start(t: Tables): Run {
    Run(t, t.revistas, 0, 0, false)
  }

  /** A match at snapshot position `j`: stock update, association, then the snapshot entry. */
  function ApplyUpdate(r: Run, k: nat, j: nat, qtd: int, doc: nat, fail: (nat, Call) -> bool): Run
    requires j < |r.snapshot|
  {
    var rev := r.snapshot[j];
    var s := rev.estoque + qtd;
    if fail(k, Update) then r.(aborted := true)
    else
      var t := r.t.(revistas := SetStock(r.t.revistas, rev.id, s));
      if fail(k, Link) then r.(t := t, aborted := true)
      else
        r.(t := t.(entregaLinks := t.entregaLinks + [EntregaLink(doc, rev.id, qtd)]),
           snapshot := r.snapshot[j := rev.(estoque := s)],
           atualizadas := r.atualizadas + 1)
  }

  /** No match: a row with the item's quantity as its stock, then its association. */
  function ApplyInsert(r: Run, k: nat, it: Item, doc: nat, fail: (nat, Call) -> bool): Run
    requires it.Ready?
  {
    if fail(k, Insert) then r.(aborted := true)
    else
      var id := r.t.nextId;
      var t := AddRevista(r.t, it.nome, Some(it.edicao), None, it.qtd);
      if fail(k, Link) then r.(t := t, aborted := true)
      else r.(t := t.(entregaLinks := t.entregaLinks + [EntregaLink(doc, id, it.qtd)]), inseridas := r.inseridas + 1)
  }

  /** One iteration, for item number `k`. */
  function Step(r: Run, k: nat, it: Item, doc: nat, fail: (nat, Call) -> bool, sim: (string, string) -> Score): Run {
    if r.aborted then r
    else match it
      case Crash => r.(aborted := true)
      case Skip => r
      case Ready(_, _, _) =>
        match FirstMatch(r.snapshot, it, sim)
        case Some(j) => ApplyUpdate(r, k, j, it.qtd, doc, fail)
        case None => ApplyInsert(r, k, it, doc, fail)
  }

  function Classified(vs: seq<Value>): (its: seq<Item>)
    ensures |its| == |vs|
    ensures forall i :: 0 <= i < |vs| ==> its[i] == Classify(vs[i])
  {
    seq(|vs|, i requires 0 <= i < |vs| => Classify(vs[i]))
  }

  function Fold(r0: Run, items: seq<Item>, doc: nat, fail: (nat, Call) -> bool, sim: (string, string) -> Score): Run
    decreases |items|
  {
    if items == [] then r0
    else
      var n := |items| - 1;
      Step(Fold(r0, items[..n], doc, fail, sim), n, items[n], doc, fail, sim)
  }

  /**
   * `_cadastrar_revistas_db`: `doc` is the decoded delivery note,
   * `fetchFails` says whether reading the catalog raises, `fail` which
   * store call raises for which item and `sim` is the similarity score.
   */
  function Reconcile(t: Tables, doc: seq<Field>, id: nat, fetchFails: bool, fail: (nat, Call) -> bool,
                     sim: (string, string) -> Score): Outcome {
    var lista := GetOr(doc, "revistas", Arr([]));
    if !Truthy(lista) then Outcome(Ok((0, 0)), t)
    else if fetchFails || !lista.Arr? then Outcome(Err(Http(500)), t)
    else
      var r := Fold(Start(t), Classified(lista.items), id, fail, sim);
      if r.aborted then Outcome(Err(Http(500)), r.t)
      else Outcome(Ok((r.inseridas, r.atualizadas)), r.t)
  }

  /**
   * What a reconciliation guarantees: an empty list writes nothing; each
   * item is counted at most once; old rows keep everything but their
   * stock; on success exactly one row per created item is added and one
   * association row per counted item, each for this document and an
   * existing magazine; whatever happened before a failure stays written;
   * the other tables are untouched.
   */
  lemma ReconcileGuarantees(t: Tables, doc: seq<Field>, id: nat, fetchFails: bool, fail: (nat, Call) -> bool,
                            sim: (string, string) -> Score, o: Outcome)
    requires ValidTables(t) && o == Reconcile(t, doc, id, fetchFails, fail, sim)
    ensures ValidTables(o.t)
    ensures !Truthy(GetOr(doc, "revistas", Arr([]))) ==> o == Outcome(Ok((0, 0)), t)
    ensures o.counts.Ok? && GetOr(doc, "revistas", Arr([])).Arr? ==>
      o.counts.value.0 + o.counts.value.1 <= |GetOr(doc, "revistas", Arr([])).items|
    ensures |o.t.revistas| >= |t.revistas| && o.t.revistas[..|t.revistas|] == WithStocks(t.revistas, o.t.revistas)
    ensures o.counts.Ok? ==> |o.t.revistas| == |t.revistas| + o.counts.value.0
    ensures |o.t.entregaLinks| >= |t.entregaLinks| && o.t.entregaLinks[..|t.entregaLinks|] == t.entregaLinks
    ensures forall i :: |t.entregaLinks| <= i < |o.t.entregaLinks| ==>
      o.t.entregaLinks[i].documento == id && HasRevista(o.t, o.t.entregaLinks[i].revista)
    ensures o.counts.Ok? ==> |o.t.entregaLinks| == |t.entregaLinks| + o.counts.value.0 + o.counts.value.1
    ensures o.t.devolucaoLinks == t.devolucaoLinks && o.t.chamadas == t.chamadas && o.t.documentos == t.documentos
  {
    var lista := GetOr(doc, "revistas", Arr([]));
    if Truthy(lista) && !fetchFails && lista.Arr? {
      var items := Classified(lista.items);
      RunGuarantees(t, items, id, fail, sim, Fold(Start(t), items, id, fail, sim));
    }
  }

  /** The guarantees above for a run over read items, whether or not it aborted. */
  lemma RunGuarantees(t: Tables, items: seq<Item>, id: nat, fail: (nat, Call) -> bool, sim: (string, string) -> Score, r: Run)
    requires ValidTables(t) && r == Fold(Start(t), items, id, fail, sim)
    ensures ValidTables(r.t)
    ensures r.inseridas + r.atualizadas <= |items|
    ensures |r.t.revistas| >= |t.revistas| && r.t.revistas[..|t.revistas|] == WithStocks(t.revistas, r.t.revistas)
    ensures !r.aborted ==> |r.t.revistas| == |t.revistas| + r.inseridas
    ensures !r.aborted ==> r.snapshot == r.t.revistas[..|t.revistas|]
    ensures |r.t.entregaLinks| == |t.entregaLinks| + r.inseridas + r.atualizadas
    ensures r.t.entregaLinks[..|t.entregaLinks|] == t.entregaLinks
    ensures forall i :: |t.entregaLinks| <= i < |r.t.entregaLinks| ==>
      r.t.entregaLinks[i].documento == id && HasRevista(r.t, r.t.entregaLinks[i].revista)
    ensures r.t.devolucaoLinks == t.devolucaoLinks && r.t.chamadas == t.chamadas && r.t.documentos == t.documentos
  {
    StartInv(t, id);
    FoldInv(t, Start(t), items, id, fail, sim);
    FoldCounts(Start(t), items, id, fail, sim);
  }

  // ---------------------------------------------------------------------
  // What every iteration preserves
  // ---------------------------------------------------------------------

  /**
   * The rows: the old ones keep everything but their stock; one row per
   * created item is added (plus one whose association failed, which
   * aborts); until a failure, the snapshot is exactly the old rows as
   * they now stand.
   */
  predicate RowsInv(t0: Tables, r: Run) {
    ValidTables(r.t) &&
    |r.snapshot| == |t0.revistas| &&
    |t0.revistas| + r.inseridas <= |r.t.revistas| <= |t0.revistas| + r.inseridas + 1 &&
    r.t.revistas[..|t0.revistas|] == WithStocks(t0.revistas, r.t.revistas) &&
    (!r.aborted ==> |r.t.revistas| == |t0.revistas| + r.inseridas && r.snapshot == r.t.revistas[..|t0.revistas|]) &&
    r.t.devolucaoLinks == t0.devolucaoLinks && r.t.chamadas == t0.chamadas && r.t.documentos == t0.documentos
  }

  /** The associations: old ones kept, exactly one new one per counted item, each for this document. */
  predicate LinksInv(t0: Tables, r: Run, doc: nat) {
    |r.t.entregaLinks| == |t0.entregaLinks| + r.inseridas + r.atualizadas &&
    r.t.entregaLinks[..|t0.entregaLinks|] == t0.entregaLinks &&
    forall i :: |t0.entregaLinks| <= i < |r.t.entregaLinks| ==>
      r.t.entregaLinks[i].documento == doc && HasRevista(r.t, r.t.entregaLinks[i].revista)
  }

  predicate Inv(t0: Tables, r: Run, doc: nat) {
    RowsInv(t0, r) && LinksInv(t0, r, doc)
  }

  lemma StartInv(t: Tables, doc: nat)
    requires ValidTables(t)
    ensures Inv(t, Start(t), doc)
  {
    assert t.revistas[..|t.revistas|] == WithStocks(t.revistas, t.revistas);
  }

  /** Magazines that exist stay existing when rows only change stock or grow. */
  lemma HasRevistaKept(t: Tables, t': Tables, id: nat)
    requires HasRevista(t, id) && |t'.revistas| >= |t.revistas|
    requires forall i :: 0 <= i < |t.revistas| ==> t'.revistas[i].id == t.revistas[i].id
    ensures HasRevista(t', id)
  {
    var i :| 0 <= i < |t.revistas| && t.revistas[i].id == id;
    assert t'.revistas[i].id == id;
  }

  /** The stock update of a matched entry touches its own row and no other. */
  lemma UpdateRows(t0: Tables, r: Run, j: nat, s: int)
    requires RowsInv(t0, r) && !r.aborted && j < |r.snapshot|
    ensures var rows' := SetStock(r.t.revistas, r.snapshot[j].id, s);
      && |rows'| == |r.t.revistas|
      && IdsIncreasing(rows', r.t.nextId)
      && rows'[..|t0.revistas|] == WithStocks(t0.revistas, rows')
      && rows'[..|t0.revistas|] == r.snapshot[j := r.snapshot[j].(estoque := s)]
      && forall i :: 0 <= i < |rows'| ==> rows'[i].id == r.t.revistas[i].id
  {
    var rows := r.t.revistas;
    var n0 := |t0.revistas|;
    var id := r.snapshot[j].id;
    var rows' := SetStock(rows, id, s);
    assert rows[..n0][j] == rows[j];
    IdsUnique(rows, r.t.nextId);
    SetStockKeepsIds(rows, id, s, r.t.nextId);
    forall i | 0 <= i < n0
      ensures rows'[i] == r.snapshot[j := r.snapshot[j].(estoque := s)][i]
      ensures rows'[i] == t0.revistas[i].(estoque := rows'[i].estoque)
    {
      assert rows[..n0][i] == rows[i];
    }
  }

  lemma UpdateInv(t0: Tables, r: Run, k: nat, j: nat, qtd: int, doc: nat, fail: (nat, Call) -> bool)
    requires Inv(t0, r, doc) && !r.aborted && j < |r.snapshot|
    ensures Inv(t0, ApplyUpdate(r, k, j, qtd, doc, fail), doc)
  {
    var rev := r.snapshot[j];
    var s := rev.estoque + qtd;
    var rows' := SetStock(r.t.revistas, rev.id, s);
    var r' := ApplyUpdate(r, k, j, qtd, doc, fail);
    UpdateRows(t0, r, j, s);
    if !fail(k, Update) {
      assert r'.t.revistas == rows';
      forall id | HasRevista(r.t, id)
        ensures HasRevista(r'.t, id)
      {
        HasRevistaKept(r.t, r'.t, id);
      }
      if !fail(k, Link) {
        var n0 := |t0.revistas|;
        assert r.t.revistas[..n0][j] == r.t.revistas[j];
        assert rows'[j].id == rev.id;
      }
    }
  }

  lemma InsertInv(t0: Tables, r: Run, k: nat, it: Item, doc: nat, fail: (nat, Call) -> bool)
    requires Inv(t0, r, doc) && !r.aborted && it.Ready?
    ensures Inv(t0, ApplyInsert(r, k, it, doc, fail), doc)
  {
    if !fail(k, Insert) {
      var rows := r.t.revistas;
      var n0 := |t0.revistas|;
      var r' := ApplyInsert(r, k, it, doc, fail);
      assert r'.t.revistas == rows + [Revista(r.t.nextId, it.nome, None, Some(it.edicao), None, it.qtd)];
      assert r'.t.revistas[..n0] == rows[..n0];
      forall id | HasRevista(r.t, id)
        ensures HasRevista(r'.t, id)
      {
        HasRevistaKept(r.t, r'.t, id);
      }
      assert r'.t.revistas[|rows|].id == r.t.nextId;
    }
  }

  lemma StepInv(t0: Tables, r: Run, k: nat, it: Item, doc: nat, fail: (nat, Call) -> bool, sim: (string, string) -> Score)
    requires Inv(t0, r, doc)
    ensures Inv(t0, Step(r, k, it, doc, fail, sim), doc)
  {
    if !r.aborted && it.Ready? {
      match FirstMatch(r.snapshot, it, sim)
      case Some(j) => UpdateInv(t0, r, k, j, it.qtd, doc, fail);
      case None => InsertInv(t0, r, k, it, doc, fail);
    }
  }

  lemma {:induction false} FoldInv(t0: Tables, r0: Run, items: seq<Item>, doc: nat, fail: (nat, Call) -> bool, sim: (string, string) -> Score)
    requires Inv(t0, r0, doc)
    ensures Inv(t0, Fold(r0, items, doc, fail, sim), doc)
    decreases |items|
  {
    if items != [] {
      var n := |items| - 1;
      FoldInv(t0, r0, items[..n], doc, fail, sim);
      StepInv(t0, Fold(r0, items[..n], doc, fail, sim), n, items[n], doc, fail, sim);
    }
  }

  /** One step moves at most one counter, by one. */
  lemma StepCounts(r: Run, k: nat, it: Item, doc: nat, fail: (nat, Call) -> bool, sim: (string, string) -> Score)
    ensures var r' := Step(r, k, it, doc, fail, sim);
      r.inseridas <= r'.inseridas && r.atualizadas <= r'.atualizadas &&
      r'.inseridas + r'.atualizadas <= r.inseridas + r.atualizadas + 1
  {
  }

  /** Each item moves at most one counter, and the counters never go down. */
  lemma {:induction false} FoldCounts(r0: Run, items: seq<Item>, doc: nat, fail: (nat, Call) -> bool, sim: (string, string) -> Score)
    ensures var r := Fold(r0, items, doc, fail, sim);
      r0.inseridas <= r.inseridas && r0.atualizadas <= r.atualizadas &&
      r.inseridas + r.atualizadas <= r0.inseridas + r0.atualizadas + |items|
    decreases |items|
  {
    if items != [] {
      var n := |items| - 1;
      FoldCounts(r0, items[..n], doc, fail, sim);
      StepCounts(Fold(r0, items[..n], doc, fail, sim), n, items[n], doc, fail, sim);
    }
  }

  /** Once the loop aborts, the later items change nothing. */
  lemma {:induction false} FoldAborted(r0: Run, items: seq<Item>, j: nat, doc: nat, fail: (nat, Call) -> bool, sim: (string, string) -> Score)
    requires j <= |items| && Fold(r0, items[..j], doc, fail, sim).aborted
    ensures Fold(r0, items, doc, fail, sim) == Fold(r0, items[..j], doc, fail, sim)
    decreases |items|
  {
    if j < |items| {
      var n := |items| - 1;
      assert items[..n][..j] == items[..j];
      FoldAborted(r0, items[..n], j, doc, fail, sim);
    } else {
      assert items[..j] == items;
    }
  }

  lemma FoldSnoc(r0: Run, items: seq<Item>, n: nat, doc: nat, fail: (nat, Call) -> bool, sim: (string, string) -> Score)
    requires n < |items|
    ensures Fold(r0, items[..n + 1], doc, fail, sim) == Step(Fold(r0, items[..n], doc, fail, sim), n, items[n], doc, fail, sim)
  {
    assert items[..n + 1][..n] == items[..n];
  }

  // ---------------------------------------------------------------------
  // Single steps
  // ---------------------------------------------------------------------

  /**
   * A matched item adds its quantity, unclamped, to the stock of the
   * matched row and of no other row, records one association row with
   * that quantity, and the snapshot sees the new stock.
   */
  lemma StepAddsToStock(t0: Tables, r: Run, k: nat, it: Item, doc: nat, fail: (nat, Call) -> bool, sim: (string, string) -> Score)
    requires Inv(t0, r, doc) && !r.aborted && it.Ready? && FirstMatch(r.snapshot, it, sim).Some?
    requires !fail(k, Update) && !fail(k, Link)
    ensures var r' := Step(r, k, it, doc, fail, sim); var j := FirstMatch(r.snapshot, it, sim).value;
      && !r'.aborted && r'.atualizadas == r.atualizadas + 1 && r'.inseridas == r.inseridas
      && |r'.t.revistas| == |r.t.revistas|
      && r'.t.revistas[j] == r.t.revistas[j].(estoque := r.t.revistas[j].estoque + it.qtd)
      && (forall i :: 0 <= i < |r.t.revistas| && i != j ==> r'.t.revistas[i] == r.t.revistas[i])
      && r'.t.entregaLinks == r.t.entregaLinks + [EntregaLink(doc, r.t.revistas[j].id, it.qtd)]
      && r'.snapshot[j].estoque == r.snapshot[j].estoque + it.qtd
  {
    var j := FirstMatch(r.snapshot, it, sim).value;
    var n0 := |t0.revistas|;
    assert r.t.revistas[..n0][j] == r.t.revistas[j];
    IdsUnique(r.t.revistas, r.t.nextId);
  }

  /** A negative delivered quantity lowers the matched row's stock. */
  lemma NegativeQuantityLowersStock(t0: Tables, r: Run, k: nat, it: Item, doc: nat, fail: (nat, Call) -> bool, sim: (string, string) -> Score)
    requires Inv(t0, r, doc) && !r.aborted && it.Ready? && it.qtd < 0 && FirstMatch(r.snapshot, it, sim).Some?
    requires !fail(k, Update) && !fail(k, Link)
    ensures var j := FirstMatch(r.snapshot, it, sim).value;
      Step(r, k, it, doc, fail, sim).t.revistas[j].estoque < r.t.revistas[j].estoque
  {
    StepAddsToStock(t0, r, k, it, doc, fail, sim);
  }

  /**
   * A new magazine that appears twice in one note creates two rows, since
   * the snapshot never sees the first: both rows carry the item's name,
   * edition and quantity.
   */
  lemma SecondCopyDuplicates(r: Run, k: nat, it: Item, doc: nat, fail: (nat, Call) -> bool, sim: (string, string) -> Score)
    requires !r.aborted && it.Ready? && FirstMatch(r.snapshot, it, sim).None?
    requires !fail(k, Insert) && !fail(k, Link) && !fail(k + 1, Insert) && !fail(k + 1, Link)
    ensures var r2 := Step(Step(r, k, it, doc, fail, sim), k + 1, it, doc, fail, sim);
      && r2.inseridas == r.inseridas + 2 && r2.atualizadas == r.atualizadas
      && r2.t.revistas == r.t.revistas + [Revista(r.t.nextId, it.nome, None, Some(it.edicao), None, it.qtd),
                                          Revista(r.t.nextId + 1, it.nome, None, Some(it.edicao), None, it.qtd)]
  {
    var r1 := Step(r, k, it, doc, fail, sim);
    assert r1 == ApplyInsert(r, k, it, doc, fail);
    assert r1.snapshot == r.snapshot;
  }

  /** A store failure while applying an item ends the loop. */
  lemma FailureAborts(r: Run, k: nat, it: Item, doc: nat, fail: (nat, Call) -> bool, sim: (string, string) -> Score)
    requires !r.aborted && it.Ready?
    requires FirstMatch(r.snapshot, it, sim).Some? ==> fail(k, Update) || fail(k, Link)
    requires FirstMatch(r.snapshot, it, sim).None? ==> fail(k, Insert) || fail(k, Link)
    ensures Step(r, k, it, doc, fail, sim).aborted
    ensures Step(r, k, it, doc, fail, sim).inseridas == r.inseridas
    ensures Step(r, k, it, doc, fail, sim).atualizadas == r.atualizadas
  {
  }

  /** An item whose conversions fail without an OverflowError, or whose name is blank, changes nothing. */
  lemma SkippedItemChangesNothing(r: Run, k: nat, f: seq<Field>, doc: nat, fail: (nat, Call) -> bool, sim: (string, string) -> Score)
    requires !Overflows(f)
    requires
      || Strip(PyStr(GetOr(f, "nome", Str("")))) == ""
      || PyInt(GetOr(f, "numero_edicao", Int(0))).None?
      || IntOrZero(GetOr(f, "qtd_estoque", Null)).None?
      || !PriceParses(GetOr(f, "preco_capa", Str("0.0")))
    ensures Step(r, k, Classify(Obj(f)), doc, fail, sim) == r
  {
    assert Classify(Obj(f)) == ReadItem(f);
  }

  // ---------------------------------------------------------------------
  // The loop itself
  // ---------------------------------------------------------------------

  /** The body of the loop for one item that was read without raising. */
  method ApplyItem(db: Store, snapshot: seq<Revista>, inseridas: nat, atualizadas: nat, it: Item, k: nat, id: nat,
                   fail: (nat, Call) -> bool, sim: (string, string) -> Score)
    returns (aborted: bool, snapshot': seq<Revista>, inseridas': nat, atualizadas': nat)
    requires db.Valid() && it != Crash
    modifies db
    ensures db.Valid()
    ensures Run(db.State(), snapshot', inseridas', atualizadas', aborted) ==
      Step(Run(old(db.State()), snapshot, inseridas, atualizadas, false), k, it, id, fail, sim)
  {
    if it.Skip? {
      return false, snapshot, inseridas, atualizadas;
    }
    var m := FindMatch(snapshot, it, sim);
    if m.Some? {
      aborted, snapshot', atualizadas' := UpdateMatched(db, snapshot, inseridas, atualizadas, m.value, it.qtd, k, id, fail);
      inseridas' := inseridas;
    } else {
      aborted, inseridas' := InsertUnmatched(db, snapshot, inseridas, atualizadas, it, k, id, fail);
      snapshot', atualizadas' := snapshot, atualizadas;
    }
  }

  /** The `if revista_existente` branch: stock update, association, then the snapshot entry. */
  method UpdateMatched(db: Store, snapshot: seq<Revista>, inseridas: nat, atualizadas: nat, j: nat, qtd: int, k: nat, id: nat,
                       fail: (nat, Call) -> bool)
    returns (aborted: bool, snapshot': seq<Revista>, atualizadas': nat)
    requires db.Valid() && j < |snapshot|
    modifies db
    ensures db.Valid()
    ensures Run(db.State(), snapshot', inseridas, atualizadas', aborted) ==
      ApplyUpdate(Run(old(db.State()), snapshot, inseridas, atualizadas, false), k, j, qtd, id, fail)
  {
    var rev := snapshot[j];
    var s := rev.estoque + qtd;
    aborted, snapshot', atualizadas' := true, snapshot, atualizadas;
    var ok := db.UpdateStock(rev.id, s, fail(k, Update));
    if ok {
      ok := db.InsertEntregaLink(EntregaLink(id, rev.id, qtd), fail(k, Link));
      if ok {
        aborted, snapshot', atualizadas' := false, snapshot[j := rev.(estoque := s)], atualizadas + 1;
      }
    }
  }

  /** The `else` branch: a row with the item's quantity, then its association. */
  method InsertUnmatched(db: Store, snapshot: seq<Revista>, inseridas: nat, atualizadas: nat, it: Item, k: nat, id: nat,
                         fail: (nat, Call) -> bool)
    returns (aborted: bool, inseridas': nat)
    requires db.Valid() && it.Ready?
    modifies db
    ensures db.Valid()
    ensures Run(db.State(), snapshot, inseridas', atualizadas, aborted) ==
      ApplyInsert(Run(old(db.State()), snapshot, inseridas, atualizadas, false), k, it, id, fail)
  {
    aborted, inseridas' := true, inseridas;
    var res := db.InsertRevista(it.nome, Some(it.edicao), None, it.qtd, fail(k, Insert));
    if res.Inserted? {
      var ok := db.InsertEntregaLink(EntregaLink(id, res.id, it.qtd), fail(k, Link));
      if ok {
        aborted, inseridas' := false, inseridas + 1;
      }
    }
  }

  /** The `for` loop over the items, from the snapshot and zero counters; it stops at the first failure. */
  method ProcessItems(db: Store, vs: seq<Value>, snapshot0: seq<Revista>, id: nat, fail: (nat, Call) -> bool, sim: (string, string) -> Score)
    returns (aborted: bool, snapshot: seq<Revista>, inseridas: nat, atualizadas: nat)
    requires db.Valid()
    modifies db
    ensures db.Valid()
    ensures Run(db.State(), snapshot, inseridas, atualizadas, aborted) ==
      Fold(Run(old(db.State()), snapshot0, 0, 0, false), Classified(vs), id, fail, sim)
  {
    ghost var r0 := Run(db.State(), snapshot0, 0, 0, false);
    ghost var items := Classified(vs);
    aborted, snapshot, inseridas, atualizadas := false, snapshot0, 0, 0;
    var i := 0;
    assert items[..0] == [];
    while i < |vs|
      invariant 0 <= i <= |vs|
      invariant db.Valid()
      invariant Fold(r0, items[..i], id, fail, sim) == Run(db.State(), snapshot, inseridas, atualizadas, false)
    {
      var it := Classify(vs[i]);
      FoldSnoc(r0, items, i, id, fail, sim);
      if it.Crash? {
        FoldAborted(r0, items, i + 1, id, fail, sim);
        return true, snapshot, inseridas, atualizadas;
      }
      aborted, snapshot, inseridas, atualizadas := ApplyItem(db, snapshot, inseridas, atualizadas, it, i, id, fail, sim);
      if aborted {
        FoldAborted(r0, items, i + 1, id, fail, sim);
        return;
      }
      i := i + 1;
    }
    assert items[..i] == items;
  }

  /** `_cadastrar_revistas_db` against the store: the same result and the same tables as `Reconcile`. */
  method CadastrarRevistasDb(db: Store, doc: seq<Field>, id: nat, fetchFails: bool, fail: (nat, Call) -> bool, sim: (string, string) -> Score)
    returns (counts: Result<(nat, nat), HttpError>)
    requires db.Valid()
    modifies db
    ensures db.Valid()
    ensures Outcome(counts, db.State()) == Reconcile(old(db.State()), doc, id, fetchFails, fail, sim)
  {
    var lista := GetOr(doc, "revistas", Arr([]));
    if !Truthy(lista) {
      return Ok((0, 0));
    }
    if fetchFails || !lista.Arr? {
      return Err(Http(500));
    }
    var aborted, snapshot, inseridas, atualizadas := ProcessItems(db, lista.items, db.revistas, id, fail, sim);
    if aborted {
      return Err(Http(500));
    }
    return Ok((inseridas, atualizadas));
  }

  // ---------------------------------------------------------------------
  // The endpoint
  // ---------------------------------------------------------------------

  /** The response of `cadastrar_chamada` in the fuzzy deliveries router. */
  datatype Response =
    | Created(idEntrega: nat, inseridas: nat, atualizadas: nat)
    | MissingFields(missing: seq<string>)                 // 400, naming the missing header fields
    | Failed(code: int)

  /**
   * The checks before anything is written. `fileEmpty` says whether the
   * upload is empty, `extraction` is what `processar_pdf_para_json`
   * returned or raised, `parseDate` is `%Y-%m-%d` parsing. On success,
   * the note and the delivery date.
   */
  function ReadHeader(fileEmpty: bool, extraction: Result<Value, ExtractError>, parseDate: string -> Option<Date>): Result<(seq<Field>, Date), Response> {
    if fileEmpty then Err(Failed(400))
    else match extraction
      case Err(_) => Err(Failed(500))                      // a ValueError, which the JSONDecodeError handler lets through
      case Ok(v) =>
        if !v.Obj? || !HasKey(v.fields, DELIVERY_HEADER) then Err(Failed(400))
        else
          var cd := GetOr(v.fields, DELIVERY_HEADER, Null);
          if cd == Null then Err(Failed(400))               // KeyError
          else if !cd.Obj? then Err(Failed(500))            // `cd.get` raises AttributeError
          else
            var missing := Entradas.Missing(cd.fields, Entradas.HEADER_FIELDS);
            if missing != [] then Err(MissingFields(missing))
            else
              var data := GetOr(cd.fields, "data", Null);
              if !data.Str? then Err(Failed(400))          // strptime's TypeError, re-raised as ValueError
              else match parseDate(data.s)
                case None => Err(Failed(400))
                case Some(d) => Ok((v.fields, d))
  }

  /**
   * Any failure of the extraction, an empty text included, answers 500,
   * never the 400 meant for an invalid JSON answer; and an extracted note
   * always carries its header key, so the missing-key 400 never fires.
   */
  lemma ExtractionFailureIs500(text: string, model: string -> Option<string>, decode: string -> Option<Value>,
                               parseDate: string -> Option<Date>)
    ensures var x := ProcessPdf(text, model, decode, DELIVERY_HEADER);
      x.Err? ==> ReadHeader(false, x, parseDate) == Err(Failed(500))
    ensures text == "" ==> ReadHeader(false, ProcessPdf(text, model, decode, DELIVERY_HEADER), parseDate) == Err(Failed(500))
    ensures var x := ProcessPdf(text, model, decode, DELIVERY_HEADER);
      ReadHeader(false, x, parseDate) == Err(Failed(400)) ==> Rejects400(x, parseDate)
  {
    var x := ProcessPdf(text, model, decode, DELIVERY_HEADER);
    HeaderKeyNeverMissing(x, parseDate);
  }

  /** Why a 400 after a successful extraction: a null header, or a date that is no string or does not parse. */
  predicate Rejects400(x: Result<Value, ExtractError>, parseDate: string -> Option<Date>) {
    && x.Ok? && x.value.Obj? && HasKey(x.value.fields, DELIVERY_HEADER)
    && var cd := GetOr(x.value.fields, DELIVERY_HEADER, Null);
       cd == Null || (cd.Obj? && (!GetOr(cd.fields, "data", Null).Str? || parseDate(GetOr(cd.fields, "data", Null).s).None?))
  }

  lemma HeaderKeyNeverMissing(x: Result<Value, ExtractError>, parseDate: string -> Option<Date>)
    requires x.Ok? ==> HasRequiredKeys(x.value, DELIVERY_HEADER)
    ensures x.Err? ==> ReadHeader(false, x, parseDate) == Err(Failed(500))
    ensures ReadHeader(false, x, parseDate) == Err(Failed(400)) ==> Rejects400(x, parseDate)
  {
  }

  /** The header checks: what a successful read guarantees, and which fields a 400 names. */
  lemma ReadHeaderRejects(fileEmpty: bool, extraction: Result<Value, ExtractError>, parseDate: string -> Option<Date>)
    ensures var h := ReadHeader(fileEmpty, extraction, parseDate);
      h.Ok? ==>
        && !fileEmpty && extraction == Ok(Obj(h.value.0))
        && GetOr(h.value.0, DELIVERY_HEADER, Null).Obj?
        && (forall x :: x in Entradas.HEADER_FIELDS ==> !IsNoneAt(GetOr(h.value.0, DELIVERY_HEADER, Null).fields, x))
        && GetOr(GetOr(h.value.0, DELIVERY_HEADER, Null).fields, "data", Null).Str?
        && parseDate(GetOr(GetOr(h.value.0, DELIVERY_HEADER, Null).fields, "data", Null).s) == Some(h.value.1)
    ensures var h := ReadHeader(fileEmpty, extraction, parseDate);
      h.Err? && h.error.MissingFields? ==>
        && h.error.missing != [] && Entradas.Subsequence(h.error.missing, Entradas.HEADER_FIELDS)
        && forall x :: x in h.error.missing <==>
             x in Entradas.HEADER_FIELDS && IsNoneAt(GetOr(extraction.value.fields, DELIVERY_HEADER, Null).fields, x)
    ensures fileEmpty ==> ReadHeader(fileEmpty, extraction, parseDate) == Err(Failed(400))
  {
    var h := ReadHeader(fileEmpty, extraction, parseDate);
    if h.Ok? {
      var cd := GetOr(h.value.0, DELIVERY_HEADER, Null);
      assert Entradas.Missing(cd.fields, Entradas.HEADER_FIELDS) == [];
    }
  }

  /** `cadastrar_chamada`: header checks, the document insert (`insertFails` says whether it raises), then the reconciliation. */
  function Entrega(t: Tables, user: string, fileEmpty: bool, text: string, model: string -> Option<string>, decode: string -> Option<Value>,
                   parseDate: string -> Option<Date>, insertFails: bool, fetchFails: bool, fail: (nat, Call) -> bool,
                   sim: (string, string) -> Score): (Response, Tables)
  {
    Answer(t, user, fileEmpty, ProcessPdf(text, model, decode, DELIVERY_HEADER), parseDate, insertFails, fetchFails, fail, sim)
  }

  /** The endpoint once the extraction has returned or raised. */
  function Answer(t: Tables, user: string, fileEmpty: bool, extraction: Result<Value, ExtractError>, parseDate: string -> Option<Date>,
                  insertFails: bool, fetchFails: bool, fail: (nat, Call) -> bool, sim: (string, string) -> Score): (Response, Tables)
  {
    match ReadHeader(fileEmpty, extraction, parseDate)
    case Err(resp) => (resp, t)
    case Ok((json, date)) =>
      if insertFails then (Failed(500), t)
      else Register(t, user, json, date, fetchFails, fail, sim)
  }

  /** The answer for a registered document `id`, given how its reconciliation ended. */
  function Respond(id: nat, o: Outcome): (Response, Tables) {
    match o.counts
    case Ok((ins, upd)) => (Created(id, ins, upd), o.t)
    case Err(_) => (Failed(500), o.t)
  }

  /** After the header checks: the document row, then the reconciliation; an exception escaping it is a 500. */
  function Register(t: Tables, user: string, json: seq<Field>, date: Date, fetchFails: bool, fail: (nat, Call) -> bool,
                    sim: (string, string) -> Score): (Response, Tables) {
    Respond(t.nextId, Reconcile(WithDocumento(t, user, date), json, t.nextId, fetchFails, fail, sim))
  }

  /** The endpoint against the store. */
  method CadastrarChamada(db: Store, user: string, fileEmpty: bool, text: string, model: string -> Option<string>,
                          decode: string -> Option<Value>, parseDate: string -> Option<Date>,
                          insertFails: bool, fetchFails: bool, fail: (nat, Call) -> bool, sim: (string, string) -> Score)
    returns (resp: Response)
    requires db.Valid()
    modifies db
    ensures db.Valid()
    ensures (resp, db.State()) == Entrega(old(db.State()), user, fileEmpty, text, model, decode, parseDate, insertFails, fetchFails, fail, sim)
  {
    if fileEmpty {
      return Failed(400);
    }
    var extraction := ProcessPdf(text, model, decode, DELIVERY_HEADER);
    var header := ReadHeader(false, extraction, parseDate);
    if header.Err? {
      return header.error;
    }
    if insertFails {
      return Failed(500);
    }
    resp := RegistrarEntrega(db, user, header.value.0, header.value.1, fetchFails, fail, sim);
  }

  /** The document insert, known to succeed, then the reconciliation. */
  method RegistrarEntrega(db: Store, user: string, json: seq<Field>, date: Date, fetchFails: bool, fail: (nat, Call) -> bool,
                          sim: (string, string) -> Score)
    returns (resp: Response)
    requires db.Valid()
    modifies db
    ensures db.Valid()
    ensures (resp, db.State()) == Register(old(db.State()), user, json, date, fetchFails, fail, sim)
  {
    ghost var t := db.State();
    var doc := db.InsertDocumento(user, date, false);
    assert db.State() == WithDocumento(t, user, date) && doc.data == t.nextId;
    var counts := CadastrarRevistasDb(db, json, doc.data, fetchFails, fail, sim);
    ghost var o := Outcome(counts, db.State());
    assert o == Reconcile(WithDocumento(t, user, date), json, t.nextId, fetchFails, fail, sim);
    if counts.Ok? {
      resp := Created(doc.data, counts.value.0, counts.value.1);
    } else {
      resp := Failed(500);
    }
    assert (resp, db.State()) == Respond(t.nextId, o);
  }

  /**
   * A rejection by the header checks leaves the tables as they were; a
   * created response means one document row was added with the id it
   * reports.
   */
  lemma AnswerGuarantees(t: Tables, user: string, fileEmpty: bool, extraction: Result<Value, ExtractError>, parseDate: string -> Option<Date>,
                         insertFails: bool, fetchFails: bool, fail: (nat, Call) -> bool, sim: (string, string) -> Score,
                         res: (Response, Tables))
    requires ValidTables(t) && res == Answer(t, user, fileEmpty, extraction, parseDate, insertFails, fetchFails, fail, sim)
    ensures ValidTables(res.1)
    ensures ReadHeader(fileEmpty, extraction, parseDate).Err? ==> res.1 == t
    ensures (res.0.Failed? && res.0.code == 400) || res.0.MissingFields? ==> res.1 == t
    ensures res.0.Created? ==> ReadHeader(fileEmpty, extraction, parseDate).Ok?
    ensures res.0.Created? ==> |res.1.documentos| == |t.documentos| + 1 && res.1.documentos[|t.documentos|].id == res.0.idEntrega
  {
    var h := ReadHeader(fileEmpty, extraction, parseDate);
    if h.Ok? && !insertFails {
      RegisterGuarantees(t, user, h.value.0, h.value.1, fetchFails, fail, sim, res);
    }
  }

  /** A registration only answers 201 or 500; it adds exactly the document row it reports. */
  lemma RegisterGuarantees(t: Tables, user: string, json: seq<Field>, date: Date, fetchFails: bool, fail: (nat, Call) -> bool,
                           sim: (string, string) -> Score, res: (Response, Tables))
    requires ValidTables(t) && res == Register(t, user, json, date, fetchFails, fail, sim)
    ensures ValidTables(res.1)
    ensures res.0.Created? || res.0 == Failed(500)
    ensures |res.1.documentos| == |t.documentos| + 1 && res.1.documentos[|t.documentos|] == Documento(t.nextId, user, date)
    ensures res.0.Created? ==> res.0.idEntrega == t.nextId
  {
    var t1 := WithDocumento(t, user, date);
    var o := Reconcile(t1, json, t.nextId, fetchFails, fail, sim);
    ReconcileGuarantees(t1, json, t.nextId, fetchFails, fail, sim, o);
    assert res == Respond(t.nextId, o);
  }
}
