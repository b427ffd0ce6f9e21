/**
 * The older name search of the `/busca` router: the same shape as the
 * catalog name search, but scored on the raw strings, with a threshold of
 * 80, and with the whole body inside a `try` whose `except Exception`
 * turns every failure, the 404s raised inside it included, into a 500.
 * It reads the table "Revistas", capitalised, where the other routers read
 * "revistas"; the model treats the two names as the same catalog.
 */
module Busca {
  import opened Wrappers
  import opened Catalog
  import opened Seqs
  import Revistas

  /** The least score this search accepts. */
  const MIN_SCORE := 80

  /** The better of the name's and the nickname's similarity to the query, on the strings as stored. */
  function RawScore(q: string, rev: Revista, sim: (string, string) -> Score): Score {
    Revistas.Max(sim(q, rev.nome), sim(q, Revistas.Apelido(rev)))
  }

  function Accepts(q: string, sim: (string, string) -> Score): Revista -> bool {
    (rev: Revista) => RawScore(q, rev, sim) >= MIN_SCORE
  }

  /**
   * What the body of the `try` produces: the accepted entries in catalog
   * order, a 404 for an empty table or no match, and a 500 standing for
   * the exception a failed read raises.
   */
  function Attempt(fetched: Option<seq<Revista>>, q: string, sim: (string, string) -> Score): Result<seq<Revista>, HttpError> {
    match fetched
    case None => Err(Http(500))
    case Some(rows) =>
      if rows == [] then Err(Http(404))
      else
        var hits := Filter(rows, Accepts(q, sim));
        if hits == [] then Err(Http(404)) else Ok(hits)
  }

  /** `except Exception`: whatever the body raised, the caller receives a 500. */
  function Caught<T>(r: Result<T, HttpError>): (c: Result<T, HttpError>)
    ensures r.Ok? ==> c == r
    ensures r.Err? ==> c == Err(Http(500))
  {
    match r
    case Ok(v) => Ok(v)
    case Err(_) => Err(Http(500))
  }

  /** `obter_revistas_por_nome_ou_apelido` of the `/busca` router. */
  function PorNome(fetched: Option<seq<Revista>>, q: string, sim: (string, string) -> Score): Result<seq<Revista>, HttpError> {
    Caught(Attempt(fetched, q, sim))
  }

  /**
   * The 404s are raised inside the `try`: the body does produce them, for
   * an empty table and for a query nothing matches, yet the caller never
   * receives a 404, only a 500.
   */
  lemma NotFoundBecomes500(fetched: Option<seq<Revista>>, q: string, sim: (string, string) -> Score)
    ensures fetched == Some([]) ==> Attempt(fetched, q, sim) == Err(Http(404))
    ensures PorNome(fetched, q, sim).Err? ==> PorNome(fetched, q, sim).error == Http(500)
    ensures PorNome(fetched, q, sim) != Err(Http(404))
  {
  }

  /** The search fails exactly when the table cannot be read, is empty, or has no entry scoring at least 80. */
  lemma PorNomeFails(fetched: Option<seq<Revista>>, q: string, sim: (string, string) -> Score)
    ensures PorNome(fetched, q, sim).Err? <==>
      fetched.None? || fetched == Some([]) ||
      forall i :: 0 <= i < |fetched.value| ==> RawScore(q, fetched.value[i], sim) < MIN_SCORE
  {
    if fetched.Some? {
      var rows := fetched.value;
      FilterEmpty(rows, Accepts(q, sim));
      assert forall i :: 0 <= i < |rows| ==> (Accepts(q, sim)(rows[i]) <==> RawScore(q, rows[i], sim) >= MIN_SCORE);
    }
  }

  /** A successful search answers the accepted entries, at least one. */
  lemma PorNomeFound(fetched: Option<seq<Revista>>, q: string, sim: (string, string) -> Score)
    ensures var r := PorNome(fetched, q, sim);
      r.Ok? ==> fetched.Some? && r.value == Filter(fetched.value, Accepts(q, sim)) && r.value != []
  {
  }

  /** The accepted entries, in catalog order. */
  lemma HitsInOrder(rows: seq<Revista>, q: string, sim: (string, string) -> Score)
    ensures var hits := Filter(rows, Accepts(q, sim)); var ps := Positions(rows, Accepts(q, sim));
      && |hits| == |ps|
      && (forall k :: 0 <= k < |ps| ==> ps[k] < |rows| && hits[k] == rows[ps[k]])
      && (forall k, l :: 0 <= k < l < |ps| ==> ps[k] < ps[l])
  {
    FilterIsPositions(rows, Accepts(q, sim));
  }

  /** An entry is accepted exactly when it scores at least 80. */
  lemma HitsExactly(rows: seq<Revista>, q: string, sim: (string, string) -> Score)
    ensures var ps := Positions(rows, Accepts(q, sim));
      forall i :: 0 <= i < |rows| ==> (i in ps <==> RawScore(q, rows[i], sim) >= MIN_SCORE)
  {
    PositionsExactly(rows, Accepts(q, sim));
  }

  /**
   * On a query and entry names that are already lower-case and trimmed,
   * both scorings agree, so an entry this search accepts is also accepted
   * by the catalog name search, whose threshold is lower.
   */
  lemma RawHitIsCatalogHit(q: string, rev: Revista, sim: (string, string) -> Score)
    requires PyText.Strip(PyText.Lower(q)) == q
    requires PyText.Strip(PyText.Lower(rev.nome)) == rev.nome
    requires PyText.Strip(PyText.Lower(Revistas.Apelido(rev))) == Revistas.Apelido(rev)
    requires RawScore(q, rev, sim) >= MIN_SCORE
    ensures Revistas.NameScore(q, rev, sim) >= Revistas.MIN_SCORE
  {
  }

  /** The body of the `try`: read the table, then score every entry. */
  method Consultar(db: Store, fetchFails: bool, q: string, sim: (string, string) -> Score) returns (r: Result<seq<Revista>, HttpError>)
    ensures r == Attempt(if fetchFails then None else Some(db.revistas), q, sim)
  {
    var dados := db.SelectRevistas(fetchFails);
    if dados.Failure? {
      return Err(Http(500));
    }
    var rows := dados.data;
    if rows == [] {
      return Err(Http(404));
    }
    var hits: seq<Revista> := [];
    var i := 0;
    while i < |rows|
      invariant 0 <= i <= |rows|
      invariant hits == Filter(rows[..i], Accepts(q, sim))
    {
      FilterSnoc(rows, Accepts(q, sim), i);
      var score := RawScore(q, rows[i], sim);
      if score >= MIN_SCORE {
        hits := hits + [rows[i]];
      }
      i := i + 1;
    }
    assert rows[..i] == rows;
    if hits == [] {
      return Err(Http(404));
    }
    return Ok(hits);
  }

  /** `obter_revistas_por_nome_ou_apelido` of the `/busca` router, with its `except Exception`. */
  method ObterRevistasPorNomeOuApelido(db: Store, fetchFails: bool, q: string, sim: (string, string) -> Score)
    returns (r: Result<seq<Revista>, HttpError>)
    ensures r == PorNome(if fetchFails then None else Some(db.revistas), q, sim)
  {
    r := Consultar(db, fetchFails, q, sim);
    if r.Err? {
      r := Err(Http(500));
    }
  }
}
