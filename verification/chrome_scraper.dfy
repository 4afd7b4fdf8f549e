/**
  The scraping run (raspagem/chrome_scraper.py): the page walk of one
  category, the walk over all categories, and the task lifecycle around
  them. The browser is replaced by the pages it would show.
 */
module ChromeScraper {
  import opened Wrappers
  import opened Modelos
  import opened BookScraper
  import opened LivrosRepositorio
  import opened TarefasRepositorio

  /**
    A page as the driver shows it: its book cards and the target of its
    "next" link, or the message of the exception raised while loading it.
   */
  datatype Pagina = Pagina(cards: seq<Card>, proxima: Option<string>) | PaginaComErro(mensagem: string)

  /**
    A category link of the side menu: its name and the pages its "next"
    chain leads through, first page first.
   */
  datatype Categoria = Categoria(nome: string, paginas: seq<Pagina>)

  const Executando: string := "EXECUTANDO"
  const Concluida: string := "CONCLUIDA"
  const ErroEstado: string := "ERRO"
  const TarefaNaoEncontrada: string := "Tarefa não encontrada"

  /** The extraction of every card of a page, `None` where it failed. */
  function Extracoes(cards: seq<Card>, nome: string): seq<Option<DadosLivro>> {
    seq(|cards|, i requires 0 <= i < |cards| => ExtrairDadosLivro(cards[i], nome))
  }

  /** The records among the extraction results, in order. */
  function Sucessos(es: seq<Option<DadosLivro>>): seq<DadosLivro>
    decreases |es|
  {
    if |es| == 0 then []
    else
      var ultimo := es[|es| - 1];
      Sucessos(es[..|es| - 1]) + (if ultimo.Some? then [ultimo.value] else [])
  }

  /** The extractions of one page's cards that did not fail, in page order. */
  function Coletados(cards: seq<Card>, nome: string): seq<DadosLivro> {
    Sucessos(Extracoes(cards, nome))
  }

  /**
    Every kept record comes from some result, every record among the
    results is kept, and nothing is dropped when no extraction failed.
   */
  lemma {:induction false} SucessosSound(es: seq<Option<DadosLivro>>)
    ensures |Sucessos(es)| <= |es|
    ensures forall d :: d in Sucessos(es) ==> Some(d) in es
    ensures forall i :: 0 <= i < |es| && es[i].Some? ==> es[i].value in Sucessos(es)
    ensures (forall i :: 0 <= i < |es| ==> es[i].Some?) ==> |Sucessos(es)| == |es|
    decreases |es|
  {
    if |es| > 0 {
      var init := es[..|es| - 1];
      var ultimo := es[|es| - 1];
      SucessosSound(init);
      var r := Sucessos(es);
      assert r == Sucessos(init) + (if ultimo.Some? then [ultimo.value] else []);
      forall d | d in r
        ensures Some(d) in es
      {
        if d in Sucessos(init) {
          assert Some(d) in init;
          var k :| 0 <= k < |init| && init[k] == Some(d);
          assert es[k] == Some(d);
        } else {
          assert es[|es| - 1] == Some(d);
        }
      }
      forall i | 0 <= i < |es| && es[i].Some?
        ensures es[i].value in r
      {
        if i < |es| - 1 {
          assert init[i] == es[i];
        }
      }
      if forall i :: 0 <= i < |es| ==> es[i].Some? {
        assert forall i :: 0 <= i < |init| ==> init[i] == es[i];
      }
    }
  }

  /**
    A page contributes at most one book per card, each tagged with the
    category and rated 0 to 5.
   */
  lemma {:induction false} ColetadosSound(cards: seq<Card>, nome: string)
    ensures |Coletados(cards, nome)| <= |cards|
    ensures forall d :: d in Coletados(cards, nome) ==> d.categoria == nome && 0 <= d.rating <= 5
  {
    var es := Extracoes(cards, nome);
    SucessosSound(es);
    forall d | d in Coletados(cards, nome)
      ensures d.categoria == nome && 0 <= d.rating <= 5
    {
      var k :| 0 <= k < |es| && es[k] == Some(d);
      assert ExtrairDadosLivro(cards[k], nome) == Some(d);
    }
  }

  /**
    A card whose extraction succeeds is never lost; when no extraction
    fails, every card gives one book.
   */
  lemma {:induction false} ColetadosComplete(cards: seq<Card>, nome: string)
    ensures forall c :: c in cards && ExtrairDadosLivro(c, nome).Some? ==> ExtrairDadosLivro(c, nome).value in Coletados(cards, nome)
    ensures (forall c :: c in cards ==> ExtrairDadosLivro(c, nome).Some?) ==> |Coletados(cards, nome)| == |cards|
  {
    var es := Extracoes(cards, nome);
    SucessosSound(es);
    forall c | c in cards && ExtrairDadosLivro(c, nome).Some?
      ensures ExtrairDadosLivro(c, nome).value in Coletados(cards, nome)
    {
      var k :| 0 <= k < |cards| && cards[k] == c;
      assert es[k] == ExtrairDadosLivro(c, nome);
    }
    if forall c :: c in cards ==> ExtrairDadosLivro(c, nome).Some? {
      forall i | 0 <= i < |es|
        ensures es[i].Some?
      {
        assert cards[i] in cards;
      }
    }
  }

  /**
    The reference walk of one category: pages are read in order, each
    contributing its successful extractions, until the first page without
    a "next" link; an exception while loading a page aborts the walk.
   */
  function RaspaCategoria(paginas: seq<Pagina>, nome: string): Result<seq<DadosLivro>, string>
    decreases |paginas|
  {
    if |paginas| == 0 then Success([])
    else
      match paginas[0]
      case PaginaComErro(m) => Failure(m)
      case Pagina(cards, proxima) =>
        if proxima.None? then Success(Coletados(cards, nome))
        else
          match RaspaCategoria(paginas[1..], nome)
          case Failure(m) => Failure(m)
          case Success(resto) => Success(Coletados(cards, nome) + resto)
  }

  /**
    An exception while loading a page reached before any page without a
    "next" link aborts the category with that exception's message.
   */
  lemma {:induction false} FailsAtErrorPage(paginas: seq<Pagina>, k: nat, nome: string)
    requires k < |paginas| && paginas[k].PaginaComErro?
    requires forall j :: 0 <= j < k ==> paginas[j].Pagina? && paginas[j].proxima.Some?
    ensures RaspaCategoria(paginas, nome) == Failure(paginas[k].mensagem)
    decreases k
  {
    if k > 0 {
      var resto := paginas[1..];
      forall j | 0 <= j < k - 1
        ensures resto[j].Pagina? && resto[j].proxima.Some?
      {
        assert resto[j] == paginas[j + 1];
      }
      FailsAtErrorPage(resto, k - 1, nome);
    }
  }

  /** What one page adds to the walk: its extractions, nothing for a page that raised. */
  function DaPagina(p: Pagina, nome: string): seq<DadosLivro> {
    match p
    case Pagina(cards, _) => Coletados(cards, nome)
    case PaginaComErro(_) => []
  }

  /** The page-by-page concatenation of the extractions of the first `k` pages. */
  function ColetadosAte(paginas: seq<Pagina>, k: nat, nome: string): seq<DadosLivro>
    requires k <= |paginas|
    decreases k
  {
    if k == 0 then []
    else DaPagina(paginas[0], nome) + ColetadosAte(paginas[1..], k - 1, nome)
  }

  /**
    Pagination stops at the first page without a "next" link: the result is
    the concatenation of the extractions of the pages up to and including
    it.
   */
  lemma {:induction false} StopsAtFirstPageWithoutNext(paginas: seq<Pagina>, k: nat, nome: string)
    requires k < |paginas|
    requires forall j :: 0 <= j < k ==> paginas[j].Pagina? && paginas[j].proxima.Some?
    requires paginas[k].Pagina? && paginas[k].proxima.None?
    ensures RaspaCategoria(paginas, nome) == Success(ColetadosAte(paginas, k + 1, nome))
    decreases k
  {
    var primeira := Coletados(paginas[0].cards, nome);
    assert DaPagina(paginas[0], nome) == primeira;
    var tail := paginas[1..];
    if k == 0 {
      assert ColetadosAte(tail, 0, nome) == [];
      assert ColetadosAte(paginas, 1, nome) == primeira + [];
      assert primeira + [] == primeira;
      assert RaspaCategoria(paginas, nome) == Success(primeira);
    } else {
      forall j | 0 <= j < k - 1
        ensures tail[j].Pagina? && tail[j].proxima.Some?
      {
        assert tail[j] == paginas[j + 1];
      }
      StopsAtFirstPageWithoutNext(tail, k - 1, nome);
      var resto := ColetadosAte(tail, k, nome);
      assert ColetadosAte(paginas, k + 1, nome) == primeira + resto;
      assert RaspaCategoria(paginas, nome) == Success(primeira + resto);
    }
  }

  /** The first `k` pages alone decide their concatenation. */
  lemma {:induction false} ColetadosAtePrefix(paginas: seq<Pagina>, k: nat, nome: string)
    requires k <= |paginas|
    ensures ColetadosAte(paginas[..k], k, nome) == ColetadosAte(paginas, k, nome)
    decreases k
  {
    if k > 0 {
      var prefixo := paginas[..k];
      assert prefixo[0] == paginas[0];
      assert prefixo[1..] == paginas[1..][..k - 1];
      ColetadosAtePrefix(paginas[1..], k - 1, nome);
    }
  }

  /** The pages after the first one without a "next" link are never visited. */
  lemma PagesAfterStopIgnored(paginas: seq<Pagina>, k: nat, nome: string)
    requires k < |paginas|
    requires forall j :: 0 <= j < k ==> paginas[j].Pagina? && paginas[j].proxima.Some?
    requires paginas[k].Pagina? && paginas[k].proxima.None?
    ensures RaspaCategoria(paginas, nome) == RaspaCategoria(paginas[..k + 1], nome)
  {
    var prefixo := paginas[..k + 1];
    assert forall j :: 0 <= j <= k ==> prefixo[j] == paginas[j];
    StopsAtFirstPageWithoutNext(paginas, k, nome);
    StopsAtFirstPageWithoutNext(prefixo, k, nome);
    ColetadosAtePrefix(paginas, k + 1, nome);
  }

  /** `dados_livros` extended by a walk result, exceptions passed through. */
  function Prefixa(dados: seq<DadosLivro>, r: Result<seq<DadosLivro>, string>): Result<seq<DadosLivro>, string> {
    match r
    case Success(resto) => Success(dados + resto)
    case Failure(m) => Failure(m)
  }

  lemma PrefixaEmpty(r: Result<seq<DadosLivro>, string>)
    ensures Prefixa([], r) == r
  {
    if r.Success? {
      assert [] + r.value == r.value;
    }
  }

  lemma PrefixaAssoc(a: seq<DadosLivro>, b: seq<DadosLivro>, r: Result<seq<DadosLivro>, string>)
    ensures Prefixa(a, Prefixa(b, r)) == Prefixa(a + b, r)
  {
    if r.Success? {
      assert a + (b + r.value) == (a + b) + r.value;
    }
  }

  /** The `for livro_element in livros_elements` loop over one page's cards. */
  method ExtraiPagina(cards: seq<Card>, nome: string) returns (dados: seq<DadosLivro>)
    ensures dados == Coletados(cards, nome)
  {
    ghost var es := Extracoes(cards, nome);
    dados := [];
    var k := 0;
    while k < |cards|
      invariant 0 <= k <= |cards|
      invariant dados == Sucessos(es[..k])
      decreases |cards| - k
    {
      var data := ExtrairDadosLivro(cards[k], nome);
      assert es[..k + 1][..k] == es[..k];
      assert es[..k + 1][k] == data;
      if data.Some? {
        dados := dados + [data.value];
      }
      k := k + 1;
    }
    assert es[..k] == es;
  }

  /**
    `raspa_livros_categoria`: the `while True` page loop with its inner loop
    over the cards, computing the reference walk.
   */
  method RaspaLivrosCategoria(paginas: seq<Pagina>, nome: string) returns (r: Result<seq<DadosLivro>, string>)
    ensures r == RaspaCategoria(paginas, nome)
  {
    var dadosLivros: seq<DadosLivro> := [];
    var i := 0;
    assert paginas[0..] == paginas;
    PrefixaEmpty(RaspaCategoria(paginas, nome));
    while i < |paginas|
      invariant 0 <= i <= |paginas|
      invariant Prefixa(dadosLivros, RaspaCategoria(paginas[i..], nome)) == RaspaCategoria(paginas, nome)
      decreases |paginas| - i
    {
      assert paginas[i..][1..] == paginas[i + 1..];
      match paginas[i]
      case PaginaComErro(m) =>
        return Failure(m);
      case Pagina(cards, proxima) =>
        var daPagina := ExtraiPagina(cards, nome);
        if proxima.Some? {
          PrefixaAssoc(dadosLivros, daPagina, RaspaCategoria(paginas[i + 1..], nome));
        }
        dadosLivros := dadosLivros + daPagina;
        if proxima.None? {
          return Success(dadosLivros);
        }
        i := i + 1;
    }
    assert paginas[i..] == [];
    assert dadosLivros + [] == dadosLivros;
    return Success(dadosLivros);
  }

  /**
    The reference walk over all categories: the per-category lists
    concatenated in menu order; the first category whose walk raises aborts
    the run with its message.
   */
  function RaspaTodas(categorias: seq<Categoria>): Result<seq<DadosLivro>, string>
    decreases |categorias|
  {
    if |categorias| == 0 then Success([])
    else
      var c := categorias[0];
      match RaspaCategoria(c.paginas, c.nome)
      case Failure(m) => Failure(m)
      case Success(livros) =>
        match RaspaTodas(categorias[1..])
        case Failure(m) => Failure(m)
        case Success(outros) => Success(livros + outros)
  }

  /**
    The full run succeeds exactly when every category walk does; then every
    book it returns belongs to one of the menu's categories, and otherwise
    its error is the one some category walk raised.
   */
  lemma {:induction false} RaspaTodasOutcome(categorias: seq<Categoria>)
    ensures RaspaTodas(categorias).Success? <==> forall i :: 0 <= i < |categorias| ==>
      RaspaCategoria(categorias[i].paginas, categorias[i].nome).Success?
    ensures RaspaTodas(categorias).Success? ==> forall d :: d in RaspaTodas(categorias).value ==>
      exists i :: 0 <= i < |categorias| && d.categoria == categorias[i].nome
    ensures RaspaTodas(categorias).Failure? ==>
      exists i :: 0 <= i < |categorias| && RaspaCategoria(categorias[i].paginas, categorias[i].nome) == Failure(RaspaTodas(categorias).error)
    decreases |categorias|
  {
    if |categorias| > 0 {
      var c := categorias[0];
      var cauda := categorias[1..];
      RaspaTodasOutcome(cauda);
      assert forall i :: 0 < i < |categorias| ==> cauda[i - 1] == categorias[i];
      var primeira := RaspaCategoria(c.paginas, c.nome);
      var resto := RaspaTodas(cauda);
      if primeira.Success? {
        CategoriaDosColetados(c.paginas, c.nome);
        if resto.Success? {
          var r := primeira.value + resto.value;
          assert RaspaTodas(categorias) == Success(r);
          forall d | d in r
            ensures exists i :: 0 <= i < |categorias| && d.categoria == categorias[i].nome
          {
            if d in primeira.value {
              assert d.categoria == categorias[0].nome;
            } else {
              assert d in resto.value;
              var k :| 0 <= k < |cauda| && d.categoria == cauda[k].nome;
              assert categorias[k + 1] == cauda[k];
            }
          }
        } else {
          var k :| 0 <= k < |cauda| && RaspaCategoria(cauda[k].paginas, cauda[k].nome) == Failure(resto.error);
          assert categorias[k + 1] == cauda[k];
        }
      }
    }
  }

  /** Every book a category walk collects carries that category's name. */
  lemma {:induction false} CategoriaDosColetados(paginas: seq<Pagina>, nome: string)
    requires RaspaCategoria(paginas, nome).Success?
    ensures forall d :: d in RaspaCategoria(paginas, nome).value ==> d.categoria == nome
    decreases |paginas|
  {
    if |paginas| > 0 && paginas[0].Pagina? {
      ColetadosSound(paginas[0].cards, nome);
      if paginas[0].proxima.Some? {
        CategoriaDosColetados(paginas[1..], nome);
      }
    }
  }

  /** The `for categoria in categorias_para_raspar` loop of the full run. */
  method ColetaTodasCategorias(categorias: seq<Categoria>) returns (r: Result<seq<DadosLivro>, string>)
    ensures r == RaspaTodas(categorias)
  {
    var todos: seq<DadosLivro> := [];
    var i := 0;
    assert categorias[0..] == categorias;
    PrefixaEmpty(RaspaTodas(categorias));
    while i < |categorias|
      invariant 0 <= i <= |categorias|
      invariant Prefixa(todos, RaspaTodas(categorias[i..])) == RaspaTodas(categorias)
      decreases |categorias| - i
    {
      assert categorias[i..][1..] == categorias[i + 1..];
      var livrosDaCategoria := RaspaLivrosCategoria(categorias[i].paginas, categorias[i].nome);
      if livrosDaCategoria.Failure? {
        return Failure(livrosDaCategoria.error);
      }
      PrefixaAssoc(todos, livrosDaCategoria.value, RaspaTodas(categorias[i + 1..]));
      todos := todos + livrosDaCategoria.value;
      i := i + 1;
    }
    assert categorias[i..] == [];
    assert todos + [] == todos;
    return Success(todos);
  }

  /** The two tables the run writes to. */
  datatype Banco = Banco(livros: TabelaLivros, tarefas: seq<Tarefa>)

  /** The dictionary `rodar_scraper_completo` returns. */
  datatype Resposta = TotalEncontrado(total: nat) | Erro(mensagem: string)

  /** The response, the final tables and the `estado` values written to the task, in order. */
  datatype Execucao = Execucao(resposta: Resposta, banco: Banco, estados: seq<string>)

  /** `atualiza_tarefa` on a task the run knows to exist. */
  function Marca(ts: seq<Tarefa>, id: string, estado: string, resultado: Json): seq<Tarefa> {
    match AtualizaTarefa(ts, id, Some(estado), Some(resultado))
    case Success(novas) => novas
    case Failure(_) => ts
  }

  /**
    `rodar_scraper_completo`. `menu` is the category list read from the
    home page, or the exception raised reading it; `falhaAoSalvar` says
    whether the database rejects the bulk insert. An empty `idTarefa`
    runs without a task.
   */
  function RodarScraperCompleto(idTarefa: string, menu: Result<seq<Categoria>, string>, banco: Banco, falhaAoSalvar: bool)
    : Execucao
  {
    var comTarefa := idTarefa != "";
    if comTarefa && BuscaTarefaPorId(banco.tarefas, idTarefa).None? then
      Execucao(Erro(TarefaNaoEncontrada), banco, [])
    else
      var b1 :=
        if comTarefa then banco.(tarefas := Marca(banco.tarefas, idTarefa, Executando, map["mensagem" := Texto("Raspagem iniciada")]))
        else banco;
      var inicio := if comTarefa then [Executando] else [];
      var coleta := match menu
        case Failure(m) => Failure(m)
        case Success(categorias) => RaspaTodas(categorias);
      match coleta
      case Failure(m) =>
        var b2 :=
          if comTarefa then b1.(tarefas := Marca(b1.tarefas, idTarefa, ErroEstado, map["erro" := Texto(m)]))
          else b1;
        Execucao(Erro(m), b2, inicio + (if comTarefa then [ErroEstado] else []))
      case Success(todos) =>
        var livros := if |todos| > 0 && !falhaAoSalvar then SalvaDadosLivros(b1.livros, todos) else b1.livros;
        var b2 := b1.(livros := livros);
        var b3 :=
          if comTarefa then b2.(tarefas := Marca(b2.tarefas, idTarefa, Concluida, map["total_encontrado" := Inteiro(|todos|)]))
          else b2;
        Execucao(TotalEncontrado(|todos|), b3, inicio + (if comTarefa then [Concluida] else []))
  }

  /** The effect of marking a task that exists: only its `estado` and `resultado` change. */
  lemma MarcaEfeito(ts: seq<Tarefa>, id: string, estado: string, resultado: Json)
    requires BuscaTarefaPorId(ts, id).Some?
    requires estado != ""
    ensures Posicao(Marca(ts, id, estado, resultado), id) == Posicao(ts, id)
    ensures
      var i := Posicao(ts, id).value;
      var us := Marca(ts, id, estado, resultado);
      && |us| == |ts|
      && us[i] == Tarefa(id, estado, Some(resultado))
      && forall j :: 0 <= j < |ts| && j != i ==> us[j] == ts[j]
  {
    PosicaoIgnoresOtherFields(ts, Marca(ts, id, estado, resultado), id);
  }

  /**
    An unknown task id returns `{"error": "Tarefa não encontrada"}` before
    any page is read, and no table is written.
   */
  lemma UnknownTaskAbortsEarly(idTarefa: string, menu: Result<seq<Categoria>, string>, banco: Banco, falhaAoSalvar: bool)
    requires idTarefa != "" && BuscaTarefaPorId(banco.tarefas, idTarefa).None?
    ensures RodarScraperCompleto(idTarefa, menu, banco, falhaAoSalvar) == Execucao(Erro(TarefaNaoEncontrada), banco, [])
  {
  }

  /**
    The lifecycle of a known task: it is set to EXECUTANDO, then ends
    CONCLUIDA with `{"total_encontrado": n}` or ERRO with `{"erro": message}`;
    every other task is left as it was.
   */
  lemma TaskLifecycle(idTarefa: string, menu: Result<seq<Categoria>, string>, banco: Banco, falhaAoSalvar: bool)
    requires idTarefa != "" && BuscaTarefaPorId(banco.tarefas, idTarefa).Some?
    ensures
      var r := RodarScraperCompleto(idTarefa, menu, banco, falhaAoSalvar);
      var i := Posicao(banco.tarefas, idTarefa).value;
      && |r.banco.tarefas| == |banco.tarefas|
      && (forall j :: 0 <= j < |banco.tarefas| && j != i ==> r.banco.tarefas[j] == banco.tarefas[j])
      && (r.resposta.TotalEncontrado? ==>
            && r.estados == [Executando, Concluida]
            && r.banco.tarefas[i] == Tarefa(idTarefa, Concluida, Some(map["total_encontrado" := Inteiro(r.resposta.total)])))
      && (r.resposta.Erro? ==>
            && r.estados == [Executando, ErroEstado]
            && r.banco.tarefas[i] == Tarefa(idTarefa, ErroEstado, Some(map["erro" := Texto(r.resposta.mensagem)])))
  {
    var ts := banco.tarefas;
    var m1 := map["mensagem" := Texto("Raspagem iniciada")];
    var r := RodarScraperCompleto(idTarefa, menu, banco, falhaAoSalvar);
    var coleta := match menu
      case Failure(m) => Failure(m)
      case Success(categorias) => RaspaTodas(categorias);
    var (estado, resultado) := match coleta
      case Failure(m) => (ErroEstado, map["erro" := Texto(m)])
      case Success(todos) => (Concluida, map["total_encontrado" := Inteiro(|todos|)]);
    assert r.banco.tarefas == Marca(Marca(ts, idTarefa, Executando, m1), idTarefa, estado, resultado);
    assert r.estados == [Executando, estado];
    MarcaDuasVezes(ts, idTarefa, Executando, m1, estado, resultado);
  }

  /** Marking a known task twice leaves the second mark on it and every other task as it was. */
  lemma MarcaDuasVezes(ts: seq<Tarefa>, id: string, e1: string, r1: Json, e2: string, r2: Json)
    requires BuscaTarefaPorId(ts, id).Some?
    requires e1 != "" && e2 != ""
    ensures
      var i := Posicao(ts, id).value;
      var us := Marca(Marca(ts, id, e1, r1), id, e2, r2);
      && |us| == |ts|
      && us[i] == Tarefa(id, e2, Some(r2))
      && forall j :: 0 <= j < |ts| && j != i ==> us[j] == ts[j]
  {
    MarcaEfeito(ts, id, e1, r1);
    var ts1 := Marca(ts, id, e1, r1);
    assert BuscaTarefaPorId(ts1, id).Some?;
    MarcaEfeito(ts1, id, e2, r2);
  }

  /** Without a task id the run writes no task. */
  lemma NoTaskWithoutId(menu: Result<seq<Categoria>, string>, banco: Banco, falhaAoSalvar: bool)
    ensures RodarScraperCompleto("", menu, banco, falhaAoSalvar).banco.tarefas == banco.tarefas
    ensures RodarScraperCompleto("", menu, banco, falhaAoSalvar).estados == []
  {
  }

  /**
    What a run does to the book table. The reported total is the length of
    the per-category lists concatenated in menu order; the books are saved
    only when that list is non-empty and the insert succeeds, a failing
    insert is swallowed and the run still completes; an exception while
    scraping saves nothing and reports its message.
   */
  lemma RunSavesCollectedBooks(idTarefa: string, menu: Result<seq<Categoria>, string>, banco: Banco, falhaAoSalvar: bool)
    requires idTarefa == "" || BuscaTarefaPorId(banco.tarefas, idTarefa).Some?
    ensures
      var r := RodarScraperCompleto(idTarefa, menu, banco, falhaAoSalvar);
      var coleta := if menu.Failure? then Failure(menu.error) else RaspaTodas(menu.value);
      && (coleta.Success? ==>
            && r.resposta == TotalEncontrado(|coleta.value|)
            && r.banco.livros ==
                 (if |coleta.value| > 0 && !falhaAoSalvar then SalvaDadosLivros(banco.livros, coleta.value)
                  else banco.livros))
      && (coleta.Failure? ==> r.resposta == Erro(coleta.error) && r.banco.livros == banco.livros)
  {
  }
}
