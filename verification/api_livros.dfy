/**
  The read-only book routes (rotas/api_livros.py) as pure queries over the
  rows of the `livros` table.
 */
module ApiLivros {
  import opened Wrappers
  import opened Text
  import opened Seqs
  import opened Modelos
  import opened LivrosRepositorio

  // ---------------------------------------------------------------------
  // Search
  // ---------------------------------------------------------------------

  /**
    The `ilike '%term%'` filters of `/books/search`: a term takes part only
    when it is non-empty.
   */
  predicate CasaBusca(l: Livro, title: string, category: string) {
    && (title == "" || ContainsIgnoreCase(l.titulo, title))
    && (category == "" || ContainsIgnoreCase(l.categoria, category))
  }

  function FiltroBusca(title: string, category: string): Livro -> bool {
    l => CasaBusca(l, title, category)
  }

  /**
    `search_livros`: exactly the rows whose title and category contain the
    non-empty terms, case-insensitively; two empty terms return the table.
   */
  function SearchLivros(livros: seq<Livro>, title: string, category: string): (r: seq<Livro>)
    ensures forall l :: l in r <==> l in livros && CasaBusca(l, title, category)
    ensures forall l :: l in r && title != "" ==> ContainsIgnoreCase(l.titulo, title)
    ensures forall l :: l in r && category != "" ==> ContainsIgnoreCase(l.categoria, category)
    ensures title == "" && category == "" ==> r == livros
  {
    if title == "" && category == "" then
      FilterAll(livros, FiltroBusca(title, category));
      Filter(livros, FiltroBusca(title, category))
    else
      Filter(livros, FiltroBusca(title, category))
  }

  // ---------------------------------------------------------------------
  // Top rated
  // ---------------------------------------------------------------------

  /** The number of books `/books/top-rated` returns at most. */
  const LimiteTop: nat := 10

  predicate NaoCrescente(s: seq<Livro>) {
    forall i, j :: 0 <= i < j < |s| ==> s[i].rating >= s[j].rating
  }

  /** Inserts `l` before the first book it does not rank below. */
  function Insere(l: Livro, s: seq<Livro>): seq<Livro>
    decreases |s|
  {
    if |s| == 0 || l.rating >= s[0].rating then [l] + s
    else [s[0]] + Insere(l, s[1..])
  }

  /** Insertion adds exactly `l`. */
  lemma {:induction false} InserePermuta(l: Livro, s: seq<Livro>)
    ensures multiset(Insere(l, s)) == multiset(s) + multiset{l}
    decreases |s|
  {
    if |s| > 0 && l.rating < s[0].rating {
      InserePermuta(l, s[1..]);
      assert s == [s[0]] + s[1..];
    }
  }

  /** Insertion adds `l` and keeps every book already there. */
  lemma {:induction false} InsereElementos(l: Livro, s: seq<Livro>)
    ensures forall x :: x in Insere(l, s) <==> x == l || x in s
    decreases |s|
  {
    if |s| > 0 && l.rating < s[0].rating {
      InsereElementos(l, s[1..]);
      assert s == [s[0]] + s[1..];
    }
  }

  /** Insertion keeps a sorted sequence sorted. */
  lemma {:induction false} InsereOrdenado(l: Livro, s: seq<Livro>)
    requires NaoCrescente(s)
    ensures NaoCrescente(Insere(l, s))
    decreases |s|
  {
    if |s| == 0 || l.rating >= s[0].rating {
      assert forall j :: 0 <= j < |s| ==> s[0].rating >= s[j].rating;
    } else {
      var cauda := s[1..];
      var resto := Insere(l, cauda);
      InsereOrdenado(l, cauda);
      InsereElementos(l, cauda);
      assert Insere(l, s) == [s[0]] + resto;
      forall j | 0 <= j < |resto|
        ensures s[0].rating >= resto[j].rating
      {
        if resto[j] != l {
          assert resto[j] in cauda;
          var m :| 0 <= m < |cauda| && cauda[m] == resto[j];
          assert s[m + 1] == resto[j];
        }
      }
    }
  }

  /** `ORDER BY rating DESC`, ties kept in table order. */
  function OrdenaPorRating(s: seq<Livro>): (r: seq<Livro>)
    ensures NaoCrescente(r)
    ensures multiset(r) == multiset(s)
    decreases |s|
  {
    if |s| == 0 then []
    else
      assert s == [s[0]] + s[1..];
      InsereOrdenado(s[0], OrdenaPorRating(s[1..]));
      InserePermuta(s[0], OrdenaPorRating(s[1..]));
      Insere(s[0], OrdenaPorRating(s[1..]))
  }

  /**
    `get_top_rated_books`: at most ten books from the table, in
    non-increasing rating order, and no book left out has a higher rating
    than one returned.
   */
  function GetTopRatedBooks(livros: seq<Livro>): (r: seq<Livro>)
    ensures |r| == if |livros| < LimiteTop then |livros| else LimiteTop
    ensures NaoCrescente(r)
    ensures multiset(r) <= multiset(livros)
    ensures forall a, b :: a in r && b in multiset(livros) - multiset(r) ==> a.rating >= b.rating
  {
    var ordenados := OrdenaPorRating(livros);
    var k := if |livros| < LimiteTop then |livros| else LimiteTop;
    PrefixSorted(ordenados, k);
    CutLeavesTail(ordenados, k);
    TopPrefix(ordenados, k);
    ordenados[..k]
  }

  /** A prefix of a sorted sequence is sorted. */
  lemma {:induction false} PrefixSorted(ordenados: seq<Livro>, k: nat)
    requires NaoCrescente(ordenados)
    requires k <= |ordenados|
    ensures NaoCrescente(ordenados[..k])
  {
    var cabeca := ordenados[..k];
    forall i, j | 0 <= i < j < |cabeca|
      ensures cabeca[i].rating >= cabeca[j].rating
    {
      assert cabeca[i] == ordenados[i] && cabeca[j] == ordenados[j];
    }
  }

  /** What a cut leaves behind is exactly the tail. */
  lemma {:induction false} CutLeavesTail(s: seq<Livro>, k: nat)
    requires k <= |s|
    ensures multiset(s[..k]) <= multiset(s)
    ensures multiset(s) - multiset(s[..k]) == multiset(s[k..])
  {
    assert s == s[..k] + s[k..];
    assert multiset(s) == multiset(s[..k]) + multiset(s[k..]);
  }

  /** Cutting a sorted sequence leaves nothing in the tail above the head. */
  lemma {:induction false} TopPrefix(ordenados: seq<Livro>, k: nat)
    requires NaoCrescente(ordenados)
    requires k <= |ordenados|
    ensures forall a, b :: a in ordenados[..k] && b in multiset(ordenados) - multiset(ordenados[..k]) ==> a.rating >= b.rating
  {
    forall a, b | a in ordenados[..k] && b in multiset(ordenados) - multiset(ordenados[..k])
      ensures a.rating >= b.rating
    {
      CutPositions(ordenados, k, a, b);
      var i, j :| 0 <= i < k <= j < |ordenados| && ordenados[i] == a && ordenados[j] == b;
    }
  }

  /** A book of the head sits before the cut, one left behind sits after it. */
  lemma CutPositions(s: seq<Livro>, k: nat, a: Livro, b: Livro)
    requires k <= |s|
    requires a in s[..k] && b in multiset(s) - multiset(s[..k])
    ensures exists i, j :: 0 <= i < k <= j < |s| && s[i] == a && s[j] == b
  {
    var cabeca: seq<Livro>, cauda: seq<Livro> := s[..k], s[k..];
    CutLeavesTail(s, k);
    var i :| 0 <= i < |cabeca| && cabeca[i] == a;
    assert b in cauda by {
      assert b in multiset(cauda);
    }
    var j :| 0 <= j < |cauda| && cauda[j] == b;
    assert s[i] == a && s[k + j] == b;
  }

  // ---------------------------------------------------------------------
  // Price range and lookup by id
  // ---------------------------------------------------------------------

  function NaFaixa(min: real, max: real): Livro -> bool {
    (l: Livro) => min <= l.preco <= max
  }

  /**
    `get_books_by_price_range`: 400 exactly when a bound is negative or the
    bounds are reversed; otherwise the books priced within the closed
    interval.
   */
  function GetBooksByPriceRange(livros: seq<Livro>, min: real, max: real): (r: Result<seq<Livro>, ErroHttp>)
    ensures r.Failure? <==> min < 0.0 || max < 0.0 || min > max
    ensures r.Failure? ==> r.error.status == 400
    ensures r.Success? ==> forall l :: l in r.value <==> l in livros && min <= l.preco && l.preco <= max
  {
    if min < 0.0 || max < 0.0 || min > max then
      Failure(ErroHttp(400, "Intervalo de preços inválido"))
    else
      Success(Filter(livros, NaFaixa(min, max)))
  }

  /** `get_livro`: the first row with the id, or 404. */
  function GetLivro(livros: seq<Livro>, bookId: int): (r: Result<Livro, ErroHttp>)
    ensures r.Failure? <==> forall k :: 0 <= k < |livros| ==> livros[k].id != bookId
    ensures r.Failure? ==> r.error.status == 404
    ensures r.Success? ==>
      exists i :: 0 <= i < |livros| && livros[i] == r.value && r.value.id == bookId &&
        forall j :: 0 <= j < i ==> livros[j].id != bookId
    decreases |livros|
  {
    if |livros| == 0 then Failure(ErroHttp(404, "Livro não encontrado"))
    else if livros[0].id == bookId then Success(livros[0])
    else
      var cauda := livros[1..];
      var r := GetLivro(cauda, bookId);
      assert forall k :: 0 < k < |livros| ==> livros[k] == cauda[k - 1];
      if r.Success? then
        var i :| 0 <= i < |cauda| && cauda[i] == r.value && r.value.id == bookId &&
          forall j :: 0 <= j < i ==> cauda[j].id != bookId;
        assert livros[i + 1] == r.value;
        r
      else r
  }

  /** With distinct ids, `get_livro` returns the one row that carries the id. */
  lemma UniqueIdFound(livros: seq<Livro>, k: nat, id: int)
    requires k < |livros| && livros[k].id == id
    requires forall i, j :: 0 <= i < j < |livros| ==> livros[i].id != livros[j].id
    ensures GetLivro(livros, id) == Success(livros[k])
  {
    var r := GetLivro(livros, id);
    assert r.Success?;
    var i :| 0 <= i < |livros| && livros[i] == r.value && r.value.id == id &&
      forall j :: 0 <= j < i ==> livros[j].id != id;
    assert i == k;
  }

  /**
    What the scraper saves is read back by id: after `salva_dados_livros` on
    a table with distinct keys, `get_livro` on the i-th newly assigned id
    returns the row built from the i-th dictionary: that id and the
    dictionary's six fields.
   */
  lemma SavedBookFoundById(t: TabelaLivros, dados: seq<DadosLivro>, i: nat)
    requires Valida(t)
    requires i < |dados|
    ensures GetLivro(BuscaTodosLivros(SalvaDadosLivros(t, dados)), t.proximoId + i)
      == Success(NovoLivro(dados[i], t.proximoId + i))
  {
    var novas := NovasLinhas(dados, t.proximoId);
    assert BuscaTodosLivros(SalvaDadosLivros(t, dados)) == t.linhas + novas;
    assert Valida(SalvaDadosLivros(t, dados));
    AppendedRowFound(t.linhas, novas, i, t.proximoId + i);
  }

  /** A row appended with an id no other row has is what `get_livro` returns for it. */
  lemma AppendedRowFound(velhas: seq<Livro>, novas: seq<Livro>, i: nat, id: int)
    requires i < |novas| && novas[i].id == id
    requires forall a, b :: 0 <= a < b < |velhas + novas| ==> (velhas + novas)[a].id != (velhas + novas)[b].id
    ensures GetLivro(velhas + novas, id) == Success(novas[i])
  {
    UniqueIdFound(velhas + novas, |velhas| + i, id);
  }

  /**
    A save leaves earlier books reachable: on a table with distinct keys,
    every row stored before `salva_dados_livros` is still what `get_livro`
    returns for its id.
   */
  lemma OldBookStillFoundById(t: TabelaLivros, dados: seq<DadosLivro>, j: nat)
    requires Valida(t)
    requires j < |t.linhas|
    ensures GetLivro(BuscaTodosLivros(SalvaDadosLivros(t, dados)), t.linhas[j].id) == Success(t.linhas[j])
  {
    var novo := SalvaDadosLivros(t, dados);
    assert Valida(novo);
    assert novo.linhas[j] == novo.linhas[..|t.linhas|][j];
    UniqueIdFound(novo.linhas, j, t.linhas[j].id);
  }

  // ---------------------------------------------------------------------
  // Categories and statistics
  // ---------------------------------------------------------------------

  function CategoriaDe(l: Livro): string { l.categoria }

  function RatingDe(l: Livro): int { l.rating }

  function ColunaCategoria(livros: seq<Livro>): seq<string> {
    seq(|livros|, i requires 0 <= i < |livros| => livros[i].categoria)
  }

  function ColunaRating(livros: seq<Livro>): seq<int> {
    seq(|livros|, i requires 0 <= i < |livros| => livros[i].rating)
  }

  lemma ColunaCategoriaContem(livros: seq<Livro>)
    ensures forall c :: c in ColunaCategoria(livros) <==> exists l :: l in livros && l.categoria == c
  {
    var r := ColunaCategoria(livros);
    forall c | c in r
      ensures exists l :: l in livros && l.categoria == c
    {
      var i :| 0 <= i < |r| && r[i] == c;
      assert livros[i] in livros;
    }
    forall c | exists l :: l in livros && l.categoria == c
      ensures c in r
    {
      var l :| l in livros && l.categoria == c;
      var i :| 0 <= i < |livros| && livros[i] == l;
      assert r[i] == c;
    }
  }

  lemma ColunaRatingContem(livros: seq<Livro>)
    ensures forall k :: k in ColunaRating(livros) <==> exists l :: l in livros && l.rating == k
  {
    var r := ColunaRating(livros);
    forall k | k in r
      ensures exists l :: l in livros && l.rating == k
    {
      var i :| 0 <= i < |r| && r[i] == k;
      assert livros[i] in livros;
    }
    forall k | exists l :: l in livros && l.rating == k
      ensures k in r
    {
      var l :| l in livros && l.rating == k;
      var i :| 0 <= i < |livros| && livros[i] == l;
      assert r[i] == k;
    }
  }

  /**
    `get_categories`: no category twice, and exactly the categories that
    occur in the table.
   */
  function GetCategories(livros: seq<Livro>): (r: seq<string>)
    ensures NoDup(r)
    ensures forall c :: c in r <==> exists l :: l in livros && l.categoria == c
  {
    ColunaCategoriaContem(livros);
    Distinct(ColunaCategoria(livros))
  }

  /** The body of `/stats/overview` and of each entry of `/stats/categories`. */
  datatype Estatisticas = Estatisticas(totalLivros: nat, precoMedio: real, distribuicaoRatings: map<int, nat>)

  function SomaPrecos(livros: seq<Livro>): real
    decreases |livros|
  {
    if |livros| == 0 then 0.0 else SomaPrecos(livros[..|livros| - 1]) + livros[|livros| - 1].preco
  }

  /** `media` is the mean of `n` values adding up to `soma`. */
  predicate EhMedia(media: real, n: nat, soma: real) {
    media * (n as real) == soma
  }

  /** `AVG(preco)`, which is NULL on no rows and becomes 0.0 through `or 0.0`. */
  function PrecoMedio(livros: seq<Livro>): (r: real)
    ensures |livros| == 0 ==> r == 0.0
    ensures |livros| > 0 ==> r * (|livros| as real) == SomaPrecos(livros)
  {
    if |livros| == 0 then 0.0 else SomaPrecos(livros) / (|livros| as real)
  }

  /** `SELECT rating, COUNT(rating) GROUP BY rating` as a dictionary. */
  function DistribuicaoRatings(livros: seq<Livro>): (r: map<int, nat>)
    ensures forall k :: k in r <==> exists l :: l in livros && l.rating == k
  {
    ColunaRatingContem(livros);
    map k | k in Distinct(ColunaRating(livros)) :: CountKey(livros, RatingDe, k)
  }

  function EstatisticasDe(livros: seq<Livro>): Estatisticas {
    Estatisticas(|livros|, PrecoMedio(livros), DistribuicaoRatings(livros))
  }

  /**
    `get_overview_stats`: the total is the table size, the mean price is 0.0
    on an empty table, every rating present is a key, each key counts the
    books with that rating, and the counts add up to the total.
   */
  lemma OverviewStats(livros: seq<Livro>)
    ensures EstatisticasDe(livros).totalLivros == |livros|
    ensures |livros| == 0 ==> EstatisticasDe(livros).precoMedio == 0.0
    ensures forall k :: k in EstatisticasDe(livros).distribuicaoRatings <==>
      exists l :: l in livros && l.rating == k
    ensures forall k :: k in EstatisticasDe(livros).distribuicaoRatings ==>
      EstatisticasDe(livros).distribuicaoRatings[k] == |Filter(livros, ComRating(k))| >= 1
    ensures SumCounts(livros, RatingDe, Distinct(ColunaRating(livros))) == |livros|
  {
    var d := DistribuicaoRatings(livros);
    forall k | k in d
      ensures d[k] == |Filter(livros, ComRating(k))| >= 1
    {
      FilterCountsKey(livros, ComRating(k), RatingDe, k);
      var l :| l in livros && l.rating == k;
      assert l in Filter(livros, ComRating(k));
    }
    ColunaRatingContem(livros);
    assert forall l :: l in livros ==> RatingDe(l) in ColunaRating(livros);
    CountsCoverAll(livros, RatingDe, Distinct(ColunaRating(livros)));
  }

  function ComRating(k: int): Livro -> bool {
    (l: Livro) => l.rating == k
  }

  function DaCategoria(c: string): Livro -> bool {
    (l: Livro) => l.categoria == c
  }

  /** `get_category_stats`: the statistics of each category's own rows. */
  function GetCategoryStats(livros: seq<Livro>): (r: map<string, Estatisticas>)
    ensures forall c :: c in r <==> exists l :: l in livros && l.categoria == c
  {
    map c | c in GetCategories(livros) :: EstatisticasDe(Filter(livros, DaCategoria(c)))
  }

  function DaCategoriaComRating(c: string, k: int): Livro -> bool {
    (l: Livro) => l.categoria == c && l.rating == k
  }

  /**
    Each category's statistics are those of its own rows, the category
    totals are its group size (never zero), and the per-category totals add
    up to the table size.
   */
  lemma CategoryStats(livros: seq<Livro>)
    ensures forall c :: c in GetCategoryStats(livros) ==>
      GetCategoryStats(livros)[c] == EstatisticasDe(Filter(livros, DaCategoria(c)))
    ensures forall c :: c in GetCategoryStats(livros) ==>
      GetCategoryStats(livros)[c].totalLivros == CountKey(livros, CategoriaDe, c) >= 1
    ensures SumCounts(livros, CategoriaDe, GetCategories(livros)) == |livros|
  {
    var r := GetCategoryStats(livros);
    forall c | c in r
      ensures r[c].totalLivros == CountKey(livros, CategoriaDe, c) >= 1
    {
      FilterCountsKey(livros, DaCategoria(c), CategoriaDe, c);
      var l :| l in livros && l.categoria == c;
      assert l in Filter(livros, DaCategoria(c));
    }
    CountsCoverAll(livros, CategoriaDe, GetCategories(livros));
  }

  /** The mean price of one entry of `/stats/categories` is the mean over the category's books. */
  lemma CategoryMeanPrice(livros: seq<Livro>, c: string)
    requires exists l :: l in livros && l.categoria == c
    ensures c in GetCategoryStats(livros)
    ensures EhMedia(GetCategoryStats(livros)[c].precoMedio, GetCategoryStats(livros)[c].totalLivros,
      SomaPrecos(Filter(livros, DaCategoria(c))))
  {
    var grupo := Filter(livros, DaCategoria(c));
    assert GetCategoryStats(livros)[c] == EstatisticasDe(grupo);
    var l :| l in livros && l.categoria == c;
    assert l in grupo;
    MeanPriceOfGroup(grupo);
  }

  /**
    The rating distribution of one entry of `/stats/categories`: its keys
    are exactly the ratings occurring in the category, and each key counts
    the books of that category with that rating.
   */
  lemma CategoryRatings(livros: seq<Livro>, c: string)
    requires exists l :: l in livros && l.categoria == c
    ensures c in GetCategoryStats(livros)
    ensures forall k :: k in GetCategoryStats(livros)[c].distribuicaoRatings <==>
      exists l :: l in livros && l.categoria == c && l.rating == k
    ensures forall k :: k in GetCategoryStats(livros)[c].distribuicaoRatings ==>
      GetCategoryStats(livros)[c].distribuicaoRatings[k] == |Filter(livros, DaCategoriaComRating(c, k))| >= 1
  {
    assert GetCategoryStats(livros)[c] == EstatisticasDe(Filter(livros, DaCategoria(c)));
    var l :| l in livros && l.categoria == c;
    GroupRatings(livros, c, l);
  }

  lemma GroupRatings(livros: seq<Livro>, c: string, l: Livro)
    requires l in livros && l.categoria == c
    ensures var e := EstatisticasDe(Filter(livros, DaCategoria(c)));
      && (forall k :: k in e.distribuicaoRatings <==> exists l :: l in livros && l.categoria == c && l.rating == k)
      && (forall k :: k in e.distribuicaoRatings ==>
            e.distribuicaoRatings[k] == |Filter(livros, DaCategoriaComRating(c, k))| >= 1)
  {
    var grupo := Filter(livros, DaCategoria(c));
    var e := EstatisticasDe(grupo);
    assert l in grupo;
    OverviewStats(grupo);
    forall k | k in e.distribuicaoRatings
      ensures e.distribuicaoRatings[k] == |Filter(livros, DaCategoriaComRating(c, k))|
    {
      FilterFilter(livros, DaCategoria(c), ComRating(k), DaCategoriaComRating(c, k));
    }
  }

  lemma MeanPriceOfGroup(grupo: seq<Livro>)
    requires |grupo| > 0
    ensures EhMedia(EstatisticasDe(grupo).precoMedio, EstatisticasDe(grupo).totalLivros, SomaPrecos(grupo))
  {
    var e := EstatisticasDe(grupo);
    assert e.totalLivros as real == |grupo| as real;
    assert e.precoMedio == PrecoMedio(grupo);
  }
}
