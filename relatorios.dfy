/**
 * The reports router: the main dashboard (today's revenue and sale count,
 * the average ticket and the ten best sellers), the single-value KPI
 * endpoints and the list of return-slip deadlines.
 *
 * The views are read by the database; here their rows are parameters, and
 * a view that cannot be read is None. Money is counted in integer cents.
 */
module Relatorios {
  import opened Wrappers
  import opened Seqs
  import Catalog

  /** A column of a view row as `row.get(column, default)` sees it: absent, present but null, or a number. */
  datatype Field = Absent | Null | Num(n: int)

  // ---------------------------------------------------------------------
  // Today's revenue
  // ---------------------------------------------------------------------

  /** `venda.get("valor_total", 0)`: an absent amount counts 0; a null one cannot be added, and the addition raises. */
  function Valor(f: Field): Option<int> {
    match f
    case Absent => Some(0)
    case Null => None
    case Num(n) => Some(n)
  }

  /** The revenue of the sales, in row order; None once a null amount is met. */
  function Faturamento(vendas: seq<Field>): Option<int>
    decreases |vendas|
  {
    if vendas == [] then Some(0)
    else
      var n := |vendas| - 1;
      match Faturamento(vendas[..n])
      case None => None
      case Some(s) =>
        match Valor(vendas[n])
        case None => None
        case Some(v) => Some(s + v)
  }

  /** The revenue is missing exactly when some amount is null. */
  lemma {:induction false} FaturamentoNull(vendas: seq<Field>)
    ensures Faturamento(vendas).None? <==> exists i :: 0 <= i < |vendas| && vendas[i] == Null
    decreases |vendas|
  {
    if vendas != [] {
      var n := |vendas| - 1;
      FaturamentoNull(vendas[..n]);
      assert forall i :: 0 <= i < n ==> vendas[..n][i] == vendas[i];
    }
  }

  /** Revenue adds up over a split of the rows. */
  lemma {:induction false} FaturamentoAppend(a: seq<Field>, b: seq<Field>)
    requires Faturamento(a).Some? && Faturamento(b).Some?
    ensures Faturamento(a + b) == Some(Faturamento(a).value + Faturamento(b).value)
    decreases |b|
  {
    if b == [] {
      assert a + b == a;
    } else {
      var n := |b| - 1;
      assert (a + b)[..|a| + n] == a + b[..n];
      assert (a + b)[|a| + n] == b[n];
      FaturamentoAppend(a, b[..n]);
    }
  }

  /** The sum loop of the dashboard; a null amount stops it. */
  method SomarFaturamento(vendas: seq<Field>) returns (r: Option<int>)
    ensures r == Faturamento(vendas)
  {
    var total := 0;
    for i := 0 to |vendas|
      invariant Faturamento(vendas[..i]) == Some(total)
    {
      assert vendas[..i + 1][..i] == vendas[..i];
      match Valor(vendas[i])
      case None =>
        FaturamentoAborts(vendas, i + 1);
        return None;
      case Some(v) =>
        total := total + v;
    }
    assert vendas[..|vendas|] == vendas;
    return Some(total);
  }

  /** Once a prefix has met a null, the whole revenue is missing. */
  lemma {:induction false} FaturamentoAborts(vendas: seq<Field>, k: nat)
    requires k <= |vendas| && Faturamento(vendas[..k]).None?
    ensures Faturamento(vendas).None?
    decreases |vendas| - k
  {
    if k < |vendas| {
      assert vendas[..k + 1][..k] == vendas[..k];
      FaturamentoAborts(vendas, k + 1);
    } else {
      assert vendas[..k] == vendas;
    }
  }

  /** The average ticket: revenue over the number of sales, or 0 when there is none. */
  function Ticket(total: int, vendas: nat): (t: real)
    ensures vendas == 0 ==> t == 0.0
    ensures vendas > 0 ==> t * (vendas as real) == total as real
  {
    if vendas > 0 then total as real / vendas as real else 0.0
  }

  // ---------------------------------------------------------------------
  // Best sellers
  // ---------------------------------------------------------------------

  /** A row of the recent-sales view, reduced to the columns the ranking reads. */
  datatype RankRow = RankRow(
    nome: Option<string>,
    revista: Option<string>,
    nomeRevista: Option<string>,
    produto: Option<string>,
    qtd: Field)

  const UNKNOWN_PRODUCT := "Produto Desconhecido"

  /** A truthy string: present and non-empty. */
  predicate Truthy(v: Option<string>) {
    v.Some? && v.value != ""
  }

  /** The columns tried for the name, in the order `or` tries them. */
  function Candidates(row: RankRow): seq<Option<string>> {
    [row.nome, row.revista, row.nomeRevista, row.produto]
  }

  /** The name a row is counted under: the first truthy candidate, else the fallback. */
  function NomeDe(row: RankRow): (n: string)
    ensures n != ""
  {
    if Truthy(row.nome) then row.nome.value
    else if Truthy(row.revista) then row.revista.value
    else if Truthy(row.nomeRevista) then row.nomeRevista.value
    else if Truthy(row.produto) then row.produto.value
    else UNKNOWN_PRODUCT
  }

  /** The name is the first truthy candidate, and the fallback only when there is none. */
  lemma NomeDeFirstTruthy(row: RankRow)
    ensures (forall i :: 0 <= i < 4 ==> !Truthy(Candidates(row)[i])) ==> NomeDe(row) == UNKNOWN_PRODUCT
    ensures forall i :: 0 <= i < 4 && Truthy(Candidates(row)[i]) && (forall j :: 0 <= j < i ==> !Truthy(Candidates(row)[j])) ==>
      NomeDe(row) == Candidates(row)[i].value
  {
    var c := Candidates(row);
    assert c[0] == row.nome && c[1] == row.revista && c[2] == row.nomeRevista && c[3] == row.produto;
  }

  /** `item.get("qtd_vendida", 1)`: an absent quantity counts one; a null one cannot be added. */
  function Qtd(f: Field): Option<int> {
    match f
    case Absent => Some(1)
    case Null => None
    case Num(n) => Some(n)
  }

  /**
   * The ranking dict: its keys in insertion order, which is the order in
   * which the names first appear, and the total of each.
   */
  datatype Ranking = Ranking(nomes: seq<string>, totais: map<string, int>)

  /** The keys are distinct and are exactly the names with a total. */
  ghost predicate WellFormed(a: Ranking) {
    && (forall i, j :: 0 <= i < j < |a.nomes| ==> a.nomes[i] != a.nomes[j])
    && (forall n :: n in a.totais <==> n in a.nomes)
  }

  /** `d[nome] = d.get(nome, 0) + qtd`: a new key goes last, an existing one keeps its place. */
  function Bump(a: Ranking, nome: string, q: int): Ranking {
    if nome in a.totais then Ranking(a.nomes, a.totais[nome := a.totais[nome] + q])
    else Ranking(a.nomes + [nome], a.totais[nome := q])
  }

  /** Bumping keeps the keys distinct and in step with the totals. */
  lemma BumpWellFormed(a: Ranking, nome: string, q: int)
    requires WellFormed(a)
    ensures WellFormed(Bump(a, nome, q))
  {
  }

  /** The ranking dict after the rows, in row order; None once a null quantity is met. */
  function Agregado(rows: seq<RankRow>): Option<Ranking>
    decreases |rows|
  {
    if rows == [] then Some(Ranking([], map[]))
    else
      var n := |rows| - 1;
      match Agregado(rows[..n])
      case None => None
      case Some(a) =>
        match Qtd(rows[n].qtd)
        case None => None
        case Some(q) => Some(Bump(a, NomeDe(rows[n]), q))
  }

  /** The quantity a row adds to its name's total. */
  function QtdOrZero(f: Field): int {
    match Qtd(f)
    case None => 0
    case Some(q) => q
  }

  /** The reference total of a name: the quantities of the rows counted under it. */
  function SumFor(rows: seq<RankRow>, nome: string): int
    decreases |rows|
  {
    if rows == [] then 0
    else
      var n := |rows| - 1;
      SumFor(rows[..n], nome) + (if NomeDe(rows[n]) == nome then QtdOrZero(rows[n].qtd) else 0)
  }

  /** A name no row is counted under sums to nothing. */
  lemma {:induction false} SumForNone(rows: seq<RankRow>, nome: string)
    requires forall k :: 0 <= k < |rows| ==> NomeDe(rows[k]) != nome
    ensures SumFor(rows, nome) == 0
    decreases |rows|
  {
    if rows != [] {
      var n := |rows| - 1;
      assert forall k :: 0 <= k < n ==> rows[..n][k] == rows[k];
      SumForNone(rows[..n], nome);
    }
  }

  /** The aggregated ranking is well formed. */
  lemma {:induction false} AgregadoWellFormed(rows: seq<RankRow>)
    ensures Agregado(rows).Some? ==> WellFormed(Agregado(rows).value)
    decreases |rows|
  {
    if rows != [] && Agregado(rows).Some? {
      var n := |rows| - 1;
      AgregadoWellFormed(rows[..n]);
      BumpWellFormed(Agregado(rows[..n]).value, NomeDe(rows[n]), Qtd(rows[n].qtd).value);
    }
  }

  /** Some row is counted under `nome`. */
  ghost predicate CountedUnder(rows: seq<RankRow>, nome: string) {
    exists k :: 0 <= k < |rows| && NomeDe(rows[k]) == nome
  }

  /** One more row with a quantity bumps that row's name in the ranking of the rows before it. */
  lemma AgregadoStep(rows: seq<RankRow>, k: nat, a: Ranking, q: int)
    requires k < |rows| && Agregado(rows[..k]) == Some(a) && Qtd(rows[k].qtd) == Some(q)
    ensures Agregado(rows[..k + 1]) == Some(Bump(a, NomeDe(rows[k]), q))
  {
    assert rows[..k + 1][..k] == rows[..k];
  }

  /** The ranking has a key for exactly the names some row is counted under. */
  lemma {:induction false} AgregadoKeys(rows: seq<RankRow>)
    ensures Agregado(rows).Some? ==> forall nome :: nome in Agregado(rows).value.totais <==> CountedUnder(rows, nome)
    decreases |rows|
  {
    if rows != [] && Agregado(rows).Some? {
      var n := |rows| - 1;
      var pre := rows[..n];
      AgregadoKeys(pre);
      var a := Agregado(pre).value;
      var b := Agregado(rows).value;
      assert b.totais.Keys == a.totais.Keys + {NomeDe(rows[n])};
      forall nome
        ensures nome in b.totais <==> CountedUnder(rows, nome)
      {
        if CountedUnder(pre, nome) {
          var k :| 0 <= k < n && NomeDe(pre[k]) == nome;
          assert pre[k] == rows[k];
        }
        if CountedUnder(rows, nome) && nome != NomeDe(rows[n]) {
          var k :| 0 <= k < |rows| && NomeDe(rows[k]) == nome;
          assert pre[k] == rows[k];
        }
      }
    }
  }

  /** Each key's total is the sum of the quantities of the rows counted under it. */
  lemma {:induction false} AgregadoTotals(rows: seq<RankRow>)
    ensures Agregado(rows).Some? ==> forall nome :: nome in Agregado(rows).value.totais ==> Agregado(rows).value.totais[nome] == SumFor(rows, nome)
    decreases |rows|
  {
    if rows != [] && Agregado(rows).Some? {
      var n := |rows| - 1;
      var pre := rows[..n];
      AgregadoTotals(pre);
      var a := Agregado(pre).value;
      var b := Agregado(rows).value;
      var m := NomeDe(rows[n]);
      if m !in a.totais {
        AgregadoKeys(pre);
        assert !CountedUnder(pre, m);
        SumForNone(pre, m);
      }
    }
  }

  /**
   * The ranking has a key for exactly the names some row is counted
   * under, and each key's total is the sum of those rows' quantities.
   */
  lemma AgregadoSums(rows: seq<RankRow>)
    ensures Agregado(rows).Some? ==>
      && (forall nome :: nome in Agregado(rows).value.totais <==> exists k :: 0 <= k < |rows| && NomeDe(rows[k]) == nome)
      && (forall nome :: nome in Agregado(rows).value.totais ==> Agregado(rows).value.totais[nome] == SumFor(rows, nome))
  {
    AgregadoKeys(rows);
    AgregadoTotals(rows);
  }

  /** Every row counted under a later key comes after some row counted under an earlier one. */
  ghost predicate InFirstAppearanceOrder(rows: seq<RankRow>, nomes: seq<string>) {
    forall i, j, k :: 0 <= i < j < |nomes| && 0 <= k < |rows| && NomeDe(rows[k]) == nomes[j] ==>
      exists m :: 0 <= m < k && NomeDe(rows[m]) == nomes[i]
  }

  /** The keys are in the order in which the names first appear in the rows. */
  lemma {:induction false} AgregadoFirstAppearance(rows: seq<RankRow>)
    ensures Agregado(rows).Some? ==> InFirstAppearanceOrder(rows, Agregado(rows).value.nomes)
    decreases |rows|
  {
    if rows != [] && Agregado(rows).Some? {
      var n := |rows| - 1;
      var pre := rows[..n];
      AgregadoFirstAppearance(pre);
      AgregadoKeys(pre);
      AgregadoWellFormed(pre);
      assert rows == pre + [rows[n]];
      BumpFirstAppearance(pre, rows[n], Agregado(pre).value, Qtd(rows[n].qtd).value);
    }
  }

  /** Bumping the name of one more row keeps the keys in first-appearance order. */
  lemma BumpFirstAppearance(pre: seq<RankRow>, row: RankRow, a: Ranking, q: int)
    requires WellFormed(a) && InFirstAppearanceOrder(pre, a.nomes)
    requires forall nome :: nome in a.totais <==> CountedUnder(pre, nome)
    ensures InFirstAppearanceOrder(pre + [row], Bump(a, NomeDe(row), q).nomes)
  {
    var rows := pre + [row];
    var b := Bump(a, NomeDe(row), q);
    forall i, j, k | 0 <= i < j < |b.nomes| && 0 <= k < |rows| && NomeDe(rows[k]) == b.nomes[j]
      ensures exists m :: 0 <= m < k && NomeDe(rows[m]) == b.nomes[i]
    {
      var k' := k;
      if k == |pre| {
        // The last row: its name is an old key, first met at some earlier row.
        if j < |a.nomes| {
          assert CountedUnder(pre, a.nomes[j]);
          k' :| 0 <= k' < |pre| && NomeDe(pre[k']) == a.nomes[j];
        }
      }
      var m := EarlierRow(pre, a, i, j, k');
      assert rows[m] == pre[m];
    }
  }

  /** A row earlier than `k` counted under the key at `i`, when `k` is counted under a later key, or `k` is past the rows. */
  lemma EarlierRow(pre: seq<RankRow>, a: Ranking, i: nat, j: nat, k: nat) returns (m: nat)
    requires WellFormed(a) && InFirstAppearanceOrder(pre, a.nomes)
    requires forall nome :: nome in a.totais <==> CountedUnder(pre, nome)
    requires i < j && i < |a.nomes| && k <= |pre|
    requires k < |pre| ==> j < |a.nomes| && NomeDe(pre[k]) == a.nomes[j]
    ensures m < k && NomeDe(pre[m]) == a.nomes[i]
  {
    if k < |pre| {
      m :| 0 <= m < k && NomeDe(pre[m]) == a.nomes[i];
    } else {
      assert a.nomes[i] in a.totais;
      m :| 0 <= m < |pre| && NomeDe(pre[m]) == a.nomes[i];
    }
  }

  /** Once a prefix has met a null quantity, the whole ranking is missing. */
  lemma {:induction false} AgregadoAborts(rows: seq<RankRow>, k: nat)
    requires k <= |rows| && Agregado(rows[..k]).None?
    ensures Agregado(rows).None?
    decreases |rows| - k
  {
    if k < |rows| {
      assert rows[..k + 1][..k] == rows[..k];
      AgregadoAborts(rows, k + 1);
    } else {
      assert rows[..k] == rows;
    }
  }

  /** A null quantity anywhere leaves the whole ranking missing. */
  lemma AgregadoStops(rows: seq<RankRow>, k: nat)
    requires k < |rows| && Qtd(rows[k].qtd).None?
    ensures Agregado(rows).None?
  {
    var pre := rows[..k + 1];
    assert pre[..k] == rows[..k] && pre[k] == rows[k];
    assert Agregado(pre).None?;
    AgregadoAborts(rows, k + 1);
  }

  /** The ranking loop of the dashboard. */
  method Agregar(rows: seq<RankRow>) returns (r: Option<Ranking>)
    ensures r == Agregado(rows)
  {
    var nomes: seq<string> := [];
    var totais: map<string, int> := map[];
    for k := 0 to |rows|
      invariant Agregado(rows[..k]) == Some(Ranking(nomes, totais))
    {
      var nome := NomeDe(rows[k]);
      match Qtd(rows[k].qtd)
      case None =>
        AgregadoStops(rows, k);
        return None;
      case Some(q) =>
        AgregadoStep(rows, k, Ranking(nomes, totais), q);
        if nome in totais {
          totais := totais[nome := totais[nome] + q];
        } else {
          nomes := nomes + [nome];
          totais := totais[nome := q];
        }
    }
    assert rows[..|rows|] == rows;
    return Some(Ranking(nomes, totais));
  }

  /** A ranking entry, as `dict.items()` yields it. */
  datatype Entry = Entry(nome: string, total: int)

  /** `mais_vendidos_agregado.items()`, in key order. */
  function Items(a: Ranking): (es: seq<Entry>)
    requires WellFormed(a)
    ensures |es| == |a.nomes|
    ensures forall i :: 0 <= i < |es| ==> es[i] == Entry(a.nomes[i], a.totais[a.nomes[i]])
  {
    seq(|a.nomes|, i requires 0 <= i < |a.nomes| => Entry(a.nomes[i], a.totais[a.nomes[i]]))
  }

  /** Where `e` goes in a list sorted by non-increasing total: after every entry with a total at least its own. */
  function InsertPos(s: seq<Entry>, t: int): (p: nat)
    ensures p <= |s|
    ensures forall k :: 0 <= k < p ==> s[k].total >= t
    ensures p < |s| ==> s[p].total < t
    decreases |s|
  {
    if s == [] || s[0].total < t then 0 else 1 + InsertPos(s[1..], t)
  }

  function Insert(s: seq<Entry>, e: Entry): seq<Entry> {
    var p := InsertPos(s, e.total);
    s[..p] + [e] + s[p..]
  }

  /**
   * `sorted(items, key=total, reverse=True)`, Python's stable sort, as an
   * insertion sort: each entry goes after every earlier one whose total is
   * at least its own.
   */
  function SortDesc(xs: seq<Entry>): seq<Entry>
    decreases |xs|
  {
    if xs == [] then [] else Insert(SortDesc(xs[..|xs| - 1]), xs[|xs| - 1])
  }

  predicate SortedDesc(s: seq<Entry>) {
    forall k, l :: 0 <= k < l < |s| ==> s[k].total >= s[l].total
  }

  /** The inserted entry sits at its position, with the entries before it in place and those after it shifted by one. */
  lemma InsertShape(s: seq<Entry>, e: Entry)
    ensures var p := InsertPos(s, e.total); var r := Insert(s, e);
      && |r| == |s| + 1 && r[p] == e
      && (forall k :: 0 <= k < p ==> r[k] == s[k])
      && (forall k :: p < k < |r| ==> r[k] == s[k - 1])
  {
  }

  /** Inserting into a sorted list keeps it sorted. */
  lemma InsertSorted(s: seq<Entry>, e: Entry)
    requires SortedDesc(s)
    ensures SortedDesc(Insert(s, e))
  {
    var p := InsertPos(s, e.total);
    var r := Insert(s, e);
    InsertShape(s, e);
    forall k, l | 0 <= k < l < |r|
      ensures r[k].total >= r[l].total
    {
      if l < p {
        assert r[k] == s[k] && r[l] == s[l];
      } else if l == p {
        assert r[k] == s[k];
      } else if k < p {
        assert r[k] == s[k] && r[l] == s[l - 1];
      } else if k == p {
        assert r[l] == s[l - 1] && s[l - 1].total <= s[p].total;
      } else {
        assert r[k] == s[k - 1] && r[l] == s[l - 1];
      }
    }
  }

  /** Inserting adds the one entry and loses none. */
  lemma InsertPermutes(s: seq<Entry>, e: Entry)
    ensures multiset(Insert(s, e)) == multiset(s) + multiset{e}
  {
    var p := InsertPos(s, e.total);
    assert s == s[..p] + s[p..];
  }

  /** The sort orders by non-increasing total and only rearranges. */
  lemma {:induction false} SortDescSorted(xs: seq<Entry>)
    ensures SortedDesc(SortDesc(xs))
    ensures multiset(SortDesc(xs)) == multiset(xs)
    decreases |xs|
  {
    if xs != [] {
      var n := |xs| - 1;
      SortDescSorted(xs[..n]);
      InsertSorted(SortDesc(xs[..n]), xs[n]);
      InsertPermutes(SortDesc(xs[..n]), xs[n]);
      assert xs == xs[..n] + [xs[n]];
    }
  }

  function TotalIs(t: int): Entry -> bool {
    (e: Entry) => e.total == t
  }

  /** Inserting keeps the entries of the new total in order, with the new one last among them. */
  lemma InsertStable(s: seq<Entry>, e: Entry, t: int)
    requires SortedDesc(s)
    ensures Filter(Insert(s, e), TotalIs(t)) == Filter(s, TotalIs(t)) + (if e.total == t then [e] else [])
  {
    var p := InsertPos(s, e.total);
    var pre, post := s[..p], s[p..];
    assert s == pre + post;
    assert Insert(s, e) == pre + [e] + post;
    FilterAppend(pre, post, TotalIs(t));
    FilterSplice(pre, e, post, TotalIs(t));
    if e.total == t {
      NoneOfTotalAfter(s, p, t);
    }
  }

  /** In a sorted list, no entry from a point whose total is below `t` onwards has total `t`. */
  lemma NoneOfTotalAfter(s: seq<Entry>, p: nat, t: int)
    requires SortedDesc(s) && p <= |s| && (p < |s| ==> s[p].total < t)
    ensures Filter(s[p..], TotalIs(t)) == []
  {
    var post := s[p..];
    forall i | 0 <= i < |post|
      ensures !TotalIs(t)(post[i])
    {
      assert post[i] == s[p + i] && s[p + i].total <= s[p].total;
    }
    FilterEmpty(post, TotalIs(t));
  }

  /**
   * The sort is stable: the entries of any one total come out in the order
   * they went in, so ties keep first-appearance order.
   */
  lemma {:induction false} SortDescStable(xs: seq<Entry>, t: int)
    ensures Filter(SortDesc(xs), TotalIs(t)) == Filter(xs, TotalIs(t))
    decreases |xs|
  {
    if xs != [] {
      var n := |xs| - 1;
      SortDescStable(xs[..n], t);
      SortDescSorted(xs[..n]);
      InsertStable(SortDesc(xs[..n]), xs[n], t);
    }
  }

  /** `dict(sorted_ranking[:10])` */
  function Top(s: seq<Entry>, n: nat): (r: seq<Entry>)
    ensures |r| <= n && |r| <= |s| && r == s[..|r|]
    ensures |s| >= n ==> |r| == n
    ensures |s| < n ==> r == s
  {
    if |s| <= n then s else s[..n]
  }

  /** The ten best sellers by total, ties in first-appearance order. */
  function MaisVendidos(a: Ranking): seq<Entry>
    requires WellFormed(a)
  {
    Top(SortDesc(Items(a)), 10)
  }

  /** The names a list of entries holds. */
  function Names(es: seq<Entry>): set<string> {
    set k | 0 <= k < |es| :: es[k].nome
  }

  /**
   * Ten names when there are at least ten, else all of them; by
   * non-increasing total, each with its own total; no name left out has a
   * larger total than one kept; and the kept entries of any one total are
   * the first of that total in key order, in key order.
   */
  lemma MaisVendidosGuarantees(a: Ranking)
    requires WellFormed(a)
    ensures var top := MaisVendidos(a);
      && |top| <= 10
      && (|a.nomes| >= 10 ==> |top| == 10)
      && SortedDesc(top)
      && (forall k :: 0 <= k < |top| ==> top[k].nome in a.totais && top[k].total == a.totais[top[k].nome])
      && (|a.nomes| <= 10 ==> multiset(top) == multiset(Items(a)))
      && (forall n, k :: n in a.totais && n !in Names(top) && 0 <= k < |top| ==> a.totais[n] <= top[k].total)
      && (forall t :: Filter(top, TotalIs(t)) <= Filter(Items(a), TotalIs(t)))
  {
    SortDescSorted(Items(a));
    KeptTotalsAreOwn(a);
    LeftOutSellLess(a);
    TiesKeepKeyOrder(a);
  }

  /** The sort keeps every name, and each kept entry carries its name's own total. */
  lemma KeptTotalsAreOwn(a: Ranking)
    requires WellFormed(a)
    ensures |SortDesc(Items(a))| == |a.nomes|
    ensures var top := MaisVendidos(a);
      forall k :: 0 <= k < |top| ==> top[k].nome in a.totais && top[k].total == a.totais[top[k].nome]
  {
    var s := SortDesc(Items(a));
    SortDescSorted(Items(a));
    assert |s| == |multiset(s)| == |Items(a)|;
    var top := MaisVendidos(a);
    forall k | 0 <= k < |top|
      ensures top[k].nome in a.totais && top[k].total == a.totais[top[k].nome]
    {
      assert top[k] == s[k];
      assert s[k] in multiset(Items(a));
      var i :| 0 <= i < |Items(a)| && Items(a)[i] == s[k];
    }
  }

  /** No name left out of the ten has a larger total than one kept. */
  lemma LeftOutSellLess(a: Ranking)
    requires WellFormed(a)
    ensures var top := MaisVendidos(a);
      forall n, k :: n in a.totais && n !in Names(top) && 0 <= k < |top| ==> a.totais[n] <= top[k].total
  {
    var s := SortDesc(Items(a));
    SortDescSorted(Items(a));
    var top := MaisVendidos(a);
    assert forall j :: 0 <= j < |top| ==> top[j] == s[j] && top[j].nome in Names(top);
    forall n, k | n in a.totais && n !in Names(top) && 0 <= k < |top|
      ensures a.totais[n] <= top[k].total
    {
      var j := SortedPosition(a, n);
    }
  }

  /** Every name has its entry somewhere in the sorted list. */
  lemma SortedPosition(a: Ranking, n: string) returns (j: nat)
    requires WellFormed(a) && n in a.totais
    ensures j < |SortDesc(Items(a))| && SortDesc(Items(a))[j] == Entry(n, a.totais[n])
  {
    var s := SortDesc(Items(a));
    SortDescSorted(Items(a));
    var i :| 0 <= i < |a.nomes| && a.nomes[i] == n;
    assert Items(a)[i] in multiset(s);
    j :| 0 <= j < |s| && s[j] == Items(a)[i];
  }

  /** The kept entries of any one total are the first of that total in key order, in key order. */
  lemma TiesKeepKeyOrder(a: Ranking)
    requires WellFormed(a)
    ensures forall t :: Filter(MaisVendidos(a), TotalIs(t)) <= Filter(Items(a), TotalIs(t))
  {
    var s := SortDesc(Items(a));
    var top := MaisVendidos(a);
    forall t
      ensures Filter(top, TotalIs(t)) <= Filter(Items(a), TotalIs(t))
    {
      SortDescStable(Items(a), t);
      assert s == top + s[|top|..];
      FilterAppend(top, s[|top|..], TotalIs(t));
    }
  }

  /** The consolidated dashboard; `W` is a row of the weekly view, which is handed on as read. */
  datatype Painel<W> = Painel(faturamento: int, vendas: nat, ticket: real, semana: seq<W>, maisVendidos: seq<Entry>)

  /**
   * `pegar_dashboard_geral`: any of the three views that cannot be read,
   * and any null amount or quantity, ends in a 500. The rows of the weekly
   * view are passed through unchanged.
   */
  function Dashboard<W>(vendas: Option<seq<Field>>, semana: Option<seq<W>>, ranking: Option<seq<RankRow>>): Result<Painel<W>, Catalog.HttpError> {
    if vendas.None? || semana.None? || ranking.None? then Err(Catalog.Http(500))
    else match (Faturamento(vendas.value), Agregado(ranking.value))
      case (Some(f), Some(a)) =>
        AgregadoWellFormed(ranking.value);
        Ok(Painel(f, |vendas.value|, Ticket(f, |vendas.value|), semana.value, MaisVendidos(a)))
      case _ => Err(Catalog.Http(500))
  }

  /**
   * Today's figures: the number of sales, their revenue, and an average
   * ticket that times the count gives the revenue back; the weekly rows
   * are the ones read.
   */
  lemma DashboardToday<W>(vendas: Option<seq<Field>>, semana: Option<seq<W>>, ranking: Option<seq<RankRow>>)
    ensures var r := Dashboard(vendas, semana, ranking);
      r.Ok? ==> && vendas.Some? && semana.Some?
                && r.value.semana == semana.value
                && r.value.vendas == |vendas.value|
                && Faturamento(vendas.value) == Some(r.value.faturamento)
                && (r.value.vendas == 0 ==> r.value.faturamento == 0 && r.value.ticket == 0.0)
                && (r.value.vendas > 0 ==> r.value.ticket * (r.value.vendas as real) == r.value.faturamento as real)
  {
  }

  /**
   * The best sellers: ten when at least ten names are counted, else all;
   * by non-increasing total, each total the sum of its name's quantities;
   * no name left out sold more than one kept; ties in the order in which
   * the names first appear.
   */
  lemma DashboardBestSellers<W>(vendas: Option<seq<Field>>, semana: Option<seq<W>>, ranking: Option<seq<RankRow>>)
    ensures var r := Dashboard(vendas, semana, ranking);
      r.Ok? ==> && ranking.Some? && Agregado(ranking.value).Some?
                && var mv, rows, a := r.value.maisVendidos, ranking.value, Agregado(ranking.value).value;
                && WellFormed(a)
                && |mv| <= 10 && (|a.nomes| >= 10 ==> |mv| == 10) && SortedDesc(mv)
                && (|a.nomes| <= 10 ==> multiset(mv) == multiset(Items(a)))
                && (forall k :: 0 <= k < |mv| ==> mv[k].total == SumFor(rows, mv[k].nome))
                && (forall i, k :: 0 <= i < |rows| && NomeDe(rows[i]) !in Names(mv) && 0 <= k < |mv| ==>
                      SumFor(rows, NomeDe(rows[i])) <= mv[k].total)
                && InFirstAppearanceOrder(rows, a.nomes)
                && (forall t :: Filter(mv, TotalIs(t)) <= Filter(Items(a), TotalIs(t)))
  {
    if Dashboard(vendas, semana, ranking).Ok? {
      var rows := ranking.value;
      var a := Agregado(rows).value;
      AgregadoSums(rows);
      AgregadoWellFormed(rows);
      AgregadoFirstAppearance(rows);
      MaisVendidosGuarantees(a);
      var mv := MaisVendidos(a);
      forall i, k | 0 <= i < |rows| && NomeDe(rows[i]) !in Names(mv) && 0 <= k < |mv|
        ensures SumFor(rows, NomeDe(rows[i])) <= mv[k].total
      {
        assert NomeDe(rows[i]) in a.totais;
      }
    }
  }

  /** The dashboard fails exactly when a view cannot be read, an amount is null, or a quantity is null. */
  lemma DashboardFails<W>(vendas: Option<seq<Field>>, semana: Option<seq<W>>, ranking: Option<seq<RankRow>>)
    ensures Dashboard(vendas, semana, ranking).Err? <==>
      (vendas.None? || semana.None? || ranking.None? || (exists i :: 0 <= i < |vendas.value| && vendas.value[i] == Null) ||
       Agregado(ranking.value).None?)
  {
    if vendas.Some? {
      FaturamentoNull(vendas.value);
    }
  }

  /** `pegar_dashboard_geral`: the two accumulation loops, then the sort and the cut. */
  method PegarDashboardGeral<W>(vendas: Option<seq<Field>>, semana: Option<seq<W>>, ranking: Option<seq<RankRow>>) returns (r: Result<Painel<W>, Catalog.HttpError>)
    ensures r == Dashboard(vendas, semana, ranking)
  {
    if vendas.None? || semana.None? || ranking.None? {
      return Err(Catalog.Http(500));
    }
    var f := SomarFaturamento(vendas.value);
    var a := Agregar(ranking.value);
    if f.None? || a.None? {
      return Err(Catalog.Http(500));
    }
    var n := |vendas.value|;
    AgregadoWellFormed(ranking.value);
    return Ok(Painel(f.value, n, Ticket(f.value, n), semana.value, MaisVendidos(a.value)));
  }

  // ---------------------------------------------------------------------
  // Single-value KPIs
  // ---------------------------------------------------------------------

  /** `resultado[0].get(column, default)` when the view has a row, else the default. */
  function Kpi(rows: seq<Field>, default: Field): (r: Field)
    ensures rows == [] ==> r == default
    ensures rows != [] && !rows[0].Absent? ==> r == rows[0]
    ensures rows != [] && rows[0].Absent? ==> r == default
  {
    if |rows| > 0 then (if rows[0].Absent? then default else rows[0]) else default
  }

  /**
   * The answer is the first row's column, a null included, or the default
   * when the column is missing; only the first row counts, and the answer
   * is never "absent": an empty view gives 0 for the counters and None for
   * the next deadline.
   */
  lemma KpiGuarantees(rows: seq<Field>, more: seq<Field>)
    requires rows != []
    ensures !rows[0].Absent? ==> Kpi(rows + more, Num(0)) == rows[0] && Kpi(rows + more, Null) == rows[0]
    ensures rows[0].Absent? ==> Kpi(rows + more, Num(0)) == Num(0) && Kpi(rows + more, Null) == Null
    ensures Kpi(rows + more, Num(0)) == Kpi(rows, Num(0))
    ensures Kpi(rows, Num(0)) != Absent && Kpi(rows, Null) != Absent
    ensures Kpi([], Num(0)) == Num(0) && Kpi([], Null) == Null
  {
    assert (rows + more)[0] == rows[0];
  }

  /** `pegar_faturamento_hoje`, `pegar_unidades_hoje` and `pegar_devolucoes_pendentes`: a view failure is a 500. */
  function Contador(rows: Option<seq<Field>>): Result<Field, Catalog.HttpError> {
    match rows
    case None => Err(Catalog.Http(500))
    case Some(rs) => Ok(Kpi(rs, Num(0)))
  }

  /** `pegar_proxima_devolucao`: the default is None. */
  function ProximaDevolucao(rows: Option<seq<Field>>): Result<Field, Catalog.HttpError> {
    match rows
    case None => Err(Catalog.Http(500))
    case Some(rs) => Ok(Kpi(rs, Null))
  }

  /** An empty view answers 0 or None, never an error. */
  lemma KpiEmptyView()
    ensures Contador(Some([])) == Ok(Num(0))
    ensures ProximaDevolucao(Some([])) == Ok(Null)
  {
  }

  // ---------------------------------------------------------------------
  // Return-slip deadlines
  // ---------------------------------------------------------------------

  /** A row of the deadline query: the slip id, its deadline as ISO text, and its status column. */
  datatype AlertRow = AlertRow(id: int, dataLimite: Option<string>, status: Option<string>)

  datatype Alerta = Alerta(id: int, dataLimite: Catalog.Date, diasRestantes: int, status: string)

  predicate HasDeadline(row: AlertRow) {
    row.dataLimite.Some?
  }

  /** One alert: `date.fromisoformat` either parses the deadline or raises. */
  function Convert(row: AlertRow, hoje: Catalog.Date, parseDate: string -> Option<Catalog.Date>): Option<Alerta>
    requires HasDeadline(row)
  {
    match parseDate(row.dataLimite.value)
    case None => None
    case Some(d) => Some(Alerta(row.id, d, d - hoje, match row.status case None => "" case Some(s) => s))
  }

  /** The alerts of the rows, in query order; an unparsable deadline raises, and the request ends in a 500. */
  function Alertas(rows: seq<AlertRow>, hoje: Catalog.Date, parseDate: string -> Option<Catalog.Date>): Result<seq<Alerta>, Catalog.HttpError>
    decreases |rows|
  {
    if rows == [] then Ok([])
    else
      var n := |rows| - 1;
      match Alertas(rows[..n], hoje, parseDate)
      case Err(e) => Err(e)
      case Ok(out) =>
        if !HasDeadline(rows[n]) then Ok(out)
        else match Convert(rows[n], hoje, parseDate)
          case None => Err(Catalog.Http(500))
          case Some(a) => Ok(out + [a])
  }

  /**
   * The alerts are the rows with a deadline, in query order, each with the
   * days left until it; the rows without one are skipped.
   */
  lemma {:induction false} AlertasAreDatedRows(rows: seq<AlertRow>, hoje: Catalog.Date, parseDate: string -> Option<Catalog.Date>)
    ensures var r := Alertas(rows, hoje, parseDate); var dated := Filter(rows, HasDeadline);
      r.Ok? ==> && |r.value| == |dated|
                && forall k :: 0 <= k < |dated| ==> Convert(dated[k], hoje, parseDate) == Some(r.value[k])
    ensures var r := Alertas(rows, hoje, parseDate); var dated := Filter(rows, HasDeadline);
      r.Err? <==> exists k :: 0 <= k < |dated| && Convert(dated[k], hoje, parseDate).None?
    decreases |rows|
  {
    if rows != [] {
      var n := |rows| - 1;
      AlertasAreDatedRows(rows[..n], hoje, parseDate);
      var dated := Filter(rows[..n], HasDeadline);
      var all := Filter(rows, HasDeadline);
      assert all == dated + (if HasDeadline(rows[n]) then [rows[n]] else []);
      assert forall k :: 0 <= k < |dated| ==> all[k] == dated[k];
      if Alertas(rows, hoje, parseDate).Err? {
        if Alertas(rows[..n], hoje, parseDate).Err? {
          var k :| 0 <= k < |dated| && Convert(dated[k], hoje, parseDate).None?;
          assert Convert(all[k], hoje, parseDate).None?;
        } else {
          assert Convert(all[|dated|], hoje, parseDate).None?;
        }
      }
    }
  }

  /** Every alert's days left is its deadline minus today. */
  lemma AlertasDaysLeft(rows: seq<AlertRow>, hoje: Catalog.Date, parseDate: string -> Option<Catalog.Date>)
    ensures var r := Alertas(rows, hoje, parseDate);
      r.Ok? ==> forall k :: 0 <= k < |r.value| ==> r.value[k].diasRestantes == r.value[k].dataLimite - hoje
  {
    AlertasAreDatedRows(rows, hoje, parseDate);
  }

  /** `listar_alertas_devolucoes`: a failed query is a 500; otherwise the loop over its rows. */
  method ListarAlertasDevolucoes(query: Option<seq<AlertRow>>, hoje: Catalog.Date, parseDate: string -> Option<Catalog.Date>)
    returns (r: Result<seq<Alerta>, Catalog.HttpError>)
    ensures query.None? ==> r == Err(Catalog.Http(500))
    ensures query.Some? ==> r == Alertas(query.value, hoje, parseDate)
  {
    if query.None? {
      return Err(Catalog.Http(500));
    }
    var rows := query.value;
    var saida: seq<Alerta> := [];
    for i := 0 to |rows|
      invariant Alertas(rows[..i], hoje, parseDate) == Ok(saida)
    {
      assert rows[..i + 1][..i] == rows[..i];
      if rows[i].dataLimite.None? {
        continue;
      }
      var enc := parseDate(rows[i].dataLimite.value);
      if enc.None? {
        AlertasAborts(rows, hoje, parseDate, i + 1);
        return Err(Catalog.Http(500));
      }
      var status := if rows[i].status.Some? then rows[i].status.value else "";
      saida := saida + [Alerta(rows[i].id, enc.value, enc.value - hoje, status)];
    }
    assert rows[..|rows|] == rows;
    return Ok(saida);
  }

  /** Once a prefix has raised, the whole list raises. */
  lemma {:induction false} AlertasAborts(rows: seq<AlertRow>, hoje: Catalog.Date, parseDate: string -> Option<Catalog.Date>, k: nat)
    requires k <= |rows| && Alertas(rows[..k], hoje, parseDate).Err?
    ensures Alertas(rows, hoje, parseDate) == Err(Catalog.Http(500))
    decreases |rows| - k
  {
    if k < |rows| {
      assert rows[..k + 1][..k] == rows[..k];
      AlertasAborts(rows, hoje, parseDate, k + 1);
    } else {
      assert rows[..k] == rows;
      AlertasErrIs500(rows, hoje, parseDate);
    }
  }

  lemma {:induction false} AlertasErrIs500(rows: seq<AlertRow>, hoje: Catalog.Date, parseDate: string -> Option<Catalog.Date>)
    ensures Alertas(rows, hoje, parseDate).Err? ==> Alertas(rows, hoje, parseDate) == Err(Catalog.Http(500))
    decreases |rows|
  {
    if rows != [] {
      AlertasErrIs500(rows[..|rows| - 1], hoje, parseDate);
    }
  }
}
