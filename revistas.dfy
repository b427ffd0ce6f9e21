/**
 * The catalog searches of the magazines router: a fuzzy search on name
 * and nickname, an exact barcode search and an exact edition search, each
 * over the whole catalog as `pegar_revistas` reads it. The store methods
 * below have no `modifies` clause: a search never writes anything.
 */
module Revistas {
  import opened Wrappers
  import opened PyText
  import opened Catalog
  import opened Seqs

  /** The least score the name search accepts. */
  const MIN_SCORE := 70

  /** A name-search result: the entry and its score. */
  datatype Hit = Hit(rev: Revista, score: Score)

  /** `item.get("apelido_revista") or ""` */
  function Apelido(rev: Revista): string {
    match rev.apelido
    case None => ""
    case Some(a) => a
  }

  /** `max(a, b)` */
  function Max(a: Score, b: Score): (m: Score)
    ensures m >= a && m >= b && (m == a || m == b)
  {
    if a >= b then a else b
  }

  /**
   * The response model requires an edition and a barcode: building the
   * response for an entry with either one null raises, and the request
   * ends in a 500. (Prices are not modelled.)
   */
  predicate Presentable(rev: Revista) {
    rev.edicao.Some? && rev.codigoBarras.Some?
  }

  // ---------------------------------------------------------------------
  // By name or nickname
  // ---------------------------------------------------------------------

  /** The better of the name's and the nickname's similarity to the query, all lower-cased and stripped. */
  function NameScore(q: string, rev: Revista, sim: (string, string) -> Score): Score {
    var nq := Strip(Lower(q));
    Max(sim(nq, Strip(Lower(rev.nome))), sim(nq, Strip(Lower(Apelido(rev)))))
  }

  /** Every entry with its score, in catalog order. */
  function Scored(rows: seq<Revista>, q: string, sim: (string, string) -> Score): (hs: seq<Hit>)
    ensures |hs| == |rows|
    ensures forall i :: 0 <= i < |rows| ==> hs[i] == Hit(rows[i], NameScore(q, rows[i], sim))
  {
    seq(|rows|, i requires 0 <= i < |rows| => Hit(rows[i], NameScore(q, rows[i], sim)))
  }

  predicate Accepted(h: Hit) {
    h.score >= MIN_SCORE
  }

  predicate HitPresentable(h: Hit) {
    Presentable(h.rev)
  }

  /**
   * `obter_revistas_por_nome_ou_apelido`: `fetched` is the catalog, or
   * None when reading it raises.
   */
  function PorNome(fetched: Option<seq<Revista>>, q: string, sim: (string, string) -> Score): Result<seq<Hit>, HttpError> {
    match fetched
    case None => Err(Http(500))
    case Some(rows) =>
      if rows == [] then Err(Http(500))
      else
        var hits := Filter(Scored(rows, q, sim), Accepted);
        if exists k :: 0 <= k < |hits| && !HitPresentable(hits[k]) then Err(Http(500))
        else if hits == [] then Err(Http(404))
        else Ok(hits)
  }

  /** The accepted entries, each with its score, in catalog order. */
  lemma NameHitsInOrder(rows: seq<Revista>, q: string, sim: (string, string) -> Score)
    ensures var hits := Filter(Scored(rows, q, sim), Accepted); var ps := Positions(Scored(rows, q, sim), Accepted);
      && |hits| == |ps|
      && (forall k :: 0 <= k < |ps| ==> ps[k] < |rows| && hits[k] == Hit(rows[ps[k]], NameScore(q, rows[ps[k]], sim)))
      && (forall k, l :: 0 <= k < l < |ps| ==> ps[k] < ps[l])
  {
    FilterIsPositions(Scored(rows, q, sim), Accepted);
  }

  /** An entry is accepted exactly when it scores at least 70. */
  lemma NameHitsExactly(rows: seq<Revista>, q: string, sim: (string, string) -> Score)
    ensures var ps := Positions(Scored(rows, q, sim), Accepted);
      forall i :: 0 <= i < |rows| ==> (i in ps <==> NameScore(q, rows[i], sim) >= MIN_SCORE)
  {
    var hs := Scored(rows, q, sim);
    PositionsExactly(hs, Accepted);
    forall i | 0 <= i < |rows|
      ensures Accepted(hs[i]) <==> NameScore(q, rows[i], sim) >= MIN_SCORE
    {
      assert hs[i].score == NameScore(q, rows[i], sim);
    }
  }

  /** The name search answers 500 when the catalog cannot be read or is empty, and never anything but 404 or 500 as an error. */
  lemma PorNomeErrors(fetched: Option<seq<Revista>>, q: string, sim: (string, string) -> Score)
    ensures fetched.None? || fetched == Some([]) ==> PorNome(fetched, q, sim) == Err(Http(500))
    ensures PorNome(fetched, q, sim).Err? ==> PorNome(fetched, q, sim).error in {Http(404), Http(500)}
  {
  }

  /** The name search answers 404 exactly when the catalog has entries and none of them scores at least 70. */
  lemma PorNomeNotFound(fetched: Option<seq<Revista>>, q: string, sim: (string, string) -> Score)
    ensures PorNome(fetched, q, sim) == Err(Http(404)) <==>
      fetched.Some? && fetched.value != [] && forall i :: 0 <= i < |fetched.value| ==> NameScore(q, fetched.value[i], sim) < MIN_SCORE
  {
    if fetched.Some? && fetched.value != [] {
      var rows := fetched.value;
      var hs := Scored(rows, q, sim);
      FilterEmpty(hs, Accepted);
      forall i | 0 <= i < |rows|
        ensures Accepted(hs[i]) <==> NameScore(q, rows[i], sim) >= MIN_SCORE
      {
        assert hs[i].score == NameScore(q, rows[i], sim);
      }
    }
  }

  /** A successful name search answers the accepted entries, at least one, every one presentable. */
  lemma PorNomeFound(fetched: Option<seq<Revista>>, q: string, sim: (string, string) -> Score)
    ensures var r := PorNome(fetched, q, sim);
      r.Ok? ==> && fetched.Some? && r.value == Filter(Scored(fetched.value, q, sim), Accepted) && r.value != []
                && forall k :: 0 <= k < |r.value| ==> Presentable(r.value[k].rev)
  {
  }

  /** `obter_revistas_por_nome_ou_apelido` over the store. */
  method ObterRevistasPorNomeOuApelido(db: Store, fetchFails: bool, q: string, sim: (string, string) -> Score)
    returns (r: Result<seq<Hit>, HttpError>)
    ensures r == PorNome(if fetchFails then None else Some(db.revistas), q, sim)
  {
    var dados := db.SelectRevistas(fetchFails);
    if dados.Failure? {
      return Err(Http(500));
    }
    var rows := dados.data;
    if rows == [] {
      return Err(Http(500));
    }
    var hits := CollectWhere(Scored(rows, q, sim), Accepted, HitPresentable);
    if hits.None? {
      return Err(Http(500));
    }
    if hits.value == [] {
      return Err(Http(404));
    }
    return Ok(hits.value);
  }

  // ---------------------------------------------------------------------
  // By barcode
  // ---------------------------------------------------------------------

  /** `str(item["codigo_barras"])`: a null barcode reads "None". */
  function BarcodeText(rev: Revista): string {
    match rev.codigoBarras
    case None => "None"
    case Some(c) => c
  }

  function BarcodeIs(q: string): Revista -> bool {
    (rev: Revista) => Strip(BarcodeText(rev)) == Strip(q)
  }

  /** `obter_revista_por_codigo_barras`: the first entry whose stripped barcode text is the stripped query. */
  function PorCodigoBarras(fetched: Option<seq<Revista>>, q: string): Result<Revista, HttpError> {
    match fetched
    case None => Err(Http(500))
    case Some(rows) =>
      if rows == [] then Err(Http(500))
      else match FirstWhere(rows, BarcodeIs(q))
        case None => Err(Http(500))
        case Some(i) => if Presentable(rows[i]) then Ok(rows[i]) else Err(Http(500))
  }

  /**
   * The barcode search answers the first entry, in catalog order, whose
   * barcode matches, and 500 for every failure, a missing match included.
   */
  lemma PorCodigoBarrasGuarantees(fetched: Option<seq<Revista>>, q: string)
    ensures var r := PorCodigoBarras(fetched, q);
      r.Ok? ==> fetched.Some? && exists i :: (0 <= i < |fetched.value| && fetched.value[i] == r.value &&
        Strip(BarcodeText(r.value)) == Strip(q) && Presentable(r.value) &&
        forall j :: 0 <= j < i ==> Strip(BarcodeText(fetched.value[j])) != Strip(q))
    ensures var r := PorCodigoBarras(fetched, q);
      fetched.None? || (forall i :: 0 <= i < |fetched.value| ==> Strip(BarcodeText(fetched.value[i])) != Strip(q)) ==> r.Err?
    ensures PorCodigoBarras(fetched, q).Err? ==> PorCodigoBarras(fetched, q).error == Http(500)
  {
    if fetched.Some? && fetched.value != [] {
      var rows := fetched.value;
      var f := FirstWhere(rows, BarcodeIs(q));
      if f.Some? {
        assert BarcodeIs(q)(rows[f.value]);
        forall j | 0 <= j < f.value
          ensures Strip(BarcodeText(rows[j])) != Strip(q)
        {
          assert !BarcodeIs(q)(rows[j]);
        }
      } else {
        forall i | 0 <= i < |rows|
          ensures Strip(BarcodeText(rows[i])) != Strip(q)
        {
          assert !BarcodeIs(q)(rows[i]);
        }
      }
    }
  }

  /**
   * A null barcode is compared as the text "None": a query "None" finds
   * an entry without a barcode, and the answer is a 500, since such an
   * entry cannot be presented.
   */
  lemma NullBarcodeMatchesNoneText(rows: seq<Revista>)
    requires rows != [] && rows[0].codigoBarras.None?
    ensures FirstWhere(rows, BarcodeIs("None")) == Some(0)
    ensures PorCodigoBarras(Some(rows), "None") == Err(Http(500))
  {
    StripFixed("None");
    assert BarcodeIs("None")(rows[0]);
    FirstWhereAt(rows, BarcodeIs("None"), 0);
  }

  /** `obter_revista_por_codigo_barras` over the store. */
  method ObterRevistaPorCodigoBarras(db: Store, fetchFails: bool, q: string) returns (r: Result<Revista, HttpError>)
    ensures r == PorCodigoBarras(if fetchFails then None else Some(db.revistas), q)
  {
    var dados := db.SelectRevistas(fetchFails);
    if dados.Failure? {
      return Err(Http(500));
    }
    if dados.data == [] {
      return Err(Http(500));
    }
    r := FindByBarcode(dados.data, q);
  }

  /** The search loop of the barcode search; it returns at the first match. */
  method FindByBarcode(rows: seq<Revista>, q: string) returns (r: Result<Revista, HttpError>)
    ensures r == PorCodigoBarras(Some(rows), q)
  {
    var i := FindFirst(rows, BarcodeIs(q));
    if i.None? {
      return Err(Http(500));
    }
    if !Presentable(rows[i.value]) {
      return Err(Http(500));
    }
    return Ok(rows[i.value]);
  }

  // ---------------------------------------------------------------------
  // By edition
  // ---------------------------------------------------------------------

  /** `str(item["numero_edicao"]).strip() == str(q).strip()` */
  function EditionIs(q: string): Revista -> bool {
    (rev: Revista) => Strip(EditionText(rev.edicao, "None")) == Strip(q)
  }

  /** `obter_revista_por_edicao`: every entry whose stripped edition text is the stripped query, in catalog order. */
  function PorEdicao(fetched: Option<seq<Revista>>, q: string): Result<seq<Revista>, HttpError> {
    match fetched
    case None => Err(Http(500))
    case Some(rows) =>
      if rows == [] then Err(Http(500))
      else
        var hits := Filter(rows, EditionIs(q));
        if exists k :: 0 <= k < |hits| && !Presentable(hits[k]) then Err(Http(500))
        else if hits == [] then Err(Http(500))
        else Ok(hits)
  }

  /** Which entries the edition filter keeps: their stripped edition text is the stripped query. */
  lemma EditionIsMeans(q: string, rev: Revista)
    ensures EditionIs(q)(rev) <==> Strip(EditionText(rev.edicao, "None")) == Strip(q)
  {
  }

  /**
   * A successful edition search answers exactly the matching entries, at
   * least one, in catalog order, every one presentable.
   */
  lemma PorEdicaoFound(fetched: Option<seq<Revista>>, q: string)
    ensures var r := PorEdicao(fetched, q);
      r.Ok? ==> fetched.Some? && var ps := Positions(fetched.value, EditionIs(q));
        && |r.value| == |ps| && |ps| > 0
        && (forall k :: 0 <= k < |ps| ==> ps[k] < |fetched.value| && r.value[k] == fetched.value[ps[k]] && Presentable(r.value[k]))
        && (forall k, l :: 0 <= k < l < |ps| ==> ps[k] < ps[l])
        && (forall i :: 0 <= i < |fetched.value| ==> (i in ps <==> EditionIs(q)(fetched.value[i])))
  {
    if fetched.Some? {
      FilterIsPositions(fetched.value, EditionIs(q));
      PositionsExactly(fetched.value, EditionIs(q));
    }
  }

  /** The edition search fails only with 500, and fails whenever no entry matches. */
  lemma PorEdicaoErrors(fetched: Option<seq<Revista>>, q: string)
    ensures fetched.Some? && (forall i :: 0 <= i < |fetched.value| ==> !EditionIs(q)(fetched.value[i])) ==> PorEdicao(fetched, q).Err?
    ensures PorEdicao(fetched, q).Err? ==> PorEdicao(fetched, q).error == Http(500)
  {
    if fetched.Some? {
      FilterEmpty(fetched.value, EditionIs(q));
    }
  }

  /** `obter_revista_por_edicao` over the store. */
  method ObterRevistaPorEdicao(db: Store, fetchFails: bool, q: string) returns (r: Result<seq<Revista>, HttpError>)
    ensures r == PorEdicao(if fetchFails then None else Some(db.revistas), q)
  {
    var dados := db.SelectRevistas(fetchFails);
    if dados.Failure? {
      return Err(Http(500));
    }
    var rows := dados.data;
    if rows == [] {
      return Err(Http(500));
    }
    var hits := CollectWhere(rows, EditionIs(q), Presentable);
    if hits.None? {
      return Err(Http(500));
    }
    if hits.value == [] {
      return Err(Http(500));
    }
    return Ok(hits.value);
  }
}
