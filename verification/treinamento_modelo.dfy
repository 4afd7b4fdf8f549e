/**
  The training pipeline that refreshes the model cache
  (ml/treinamento_modelo.py): label the prepared frame, train the three
  classifiers, swap the results into the cache and persist them.
 */
module TreinamentoModelo {
  import opened Wrappers
  import opened Modelos
  import opened GerenciadorDeModelos

  /**
    A numeric feature frame: its column names in order and one row per book,
    each row a value per column.
   */
  datatype Quadro = Quadro(colunas: seq<string>, linhas: seq<map<string, real>>)

  /** Every row has exactly the frame's columns, as in any DataFrame. */
  predicate Retangular(q: Quadro) {
    forall i :: 0 <= i < |q.linhas| ==> q.linhas[i].Keys == set c | c in q.colunas
  }

  /** `DataFrame.empty`: no rows or no columns. */
  predicate Vazio(q: Quadro) {
    |q.linhas| == 0 || |q.colunas| == 0
  }

  /**
    What `preparar_dados_livros` hands back: the feature frame and the
    fitted encoder and TF-IDF vectoriser. When it fails or finds no books
    the frame is empty and the artefacts are not used.
   */
  datatype Preparado = Preparado(quadro: Quadro, encoder: Objeto, tfidf: Objeto)

  const ColunaRating: string := "rating"
  const ColunaBomRating: string := "bom_rating"

  /** A book is "good" from rating 4 up. */
  function BomRating(rating: real): (r: int)
    ensures r == 0 || r == 1
    ensures r == 1 <==> rating >= 4.0
  {
    if rating >= 4.0 then 1 else 0
  }

  /**
    The `bom_rating` target: one label per row, a `KeyError` (failure) when
    the frame has no `rating` column.
   */
  function Rotulos(q: Quadro): (r: Result<seq<int>, string>)
    requires Retangular(q)
    ensures r.Failure? <==> ColunaRating !in q.colunas
    ensures r.Success? ==> |r.value| == |q.linhas|
    ensures r.Success? ==> forall i :: 0 <= i < |q.linhas| ==>
      (r.value[i] == 1 <==> q.linhas[i][ColunaRating] >= 4.0) && (r.value[i] == 0 || r.value[i] == 1)
  {
    if ColunaRating !in q.colunas then Failure("KeyError: 'rating'")
    else Success(seq(|q.linhas|, i requires 0 <= i < |q.linhas| => BomRating(q.linhas[i][ColunaRating])))
  }

  predicate EhFeature(c: string) {
    c != ColunaRating && c != ColunaBomRating
  }

  function SoFeatures(colunas: seq<string>): (r: seq<string>)
    ensures forall c :: c in r <==> c in colunas && EhFeature(c)
  {
    if |colunas| == 0 then []
    else if EhFeature(colunas[0]) then [colunas[0]] + SoFeatures(colunas[1..])
    else SoFeatures(colunas[1..])
  }

  /** The feature matrix X: the frame without `rating` and `bom_rating`. */
  function Features(q: Quadro): (r: Quadro)
    requires Retangular(q)
    ensures Retangular(r)
    ensures forall c :: c in r.colunas <==> c in q.colunas && EhFeature(c)
    ensures |r.linhas| == |q.linhas|
    ensures forall i, c :: 0 <= i < |q.linhas| && c in r.linhas[i] ==> r.linhas[i][c] == q.linhas[i][c]
  {
    var cs := SoFeatures(q.colunas);
    Quadro(cs, seq(|q.linhas|, i requires 0 <= i < |q.linhas| =>
      map c | c in q.linhas[i] && EhFeature(c) :: q.linhas[i][c]))
  }

  /** The figures read from `classification_report` on the held-out split. */
  datatype Relatorio = Relatorio(accuracy: real, f1MacroAvg: real)

  /**
    Fitting one classifier: split with seed 42, fit, evaluate on the test
    split and refit on all rows. The learning itself is outside the model,
    so it is a parameter; a failure is any exception it raises.
   */
  type Treinador = (string, Quadro, seq<int>) -> Result<(Objeto, Relatorio), string>

  /** One entry of the `resultados` list. */
  datatype Treinado = Treinado(nome: string, modelo: Objeto, metricas: map<string, real>)

  const NomesModelos: seq<string> := ["random_forest", "regressao_logistica", "svm"]

  const ChaveAcuracia: string := "acuracia"
  const ChaveF1: string := "f1_score_macro"

  /** The metrics dictionary `_treinar_um_modelo` builds from the report. */
  function Metricas(rel: Relatorio): (m: map<string, real>)
    ensures m.Keys == {ChaveAcuracia, ChaveF1}
    ensures m[ChaveAcuracia] == rel.accuracy && m[ChaveF1] == rel.f1MacroAvg
  {
    map[ChaveAcuracia := rel.accuracy, ChaveF1 := rel.f1MacroAvg]
  }

  /**
    `Parallel(...)(delayed(_treinar_um_modelo)(...) for ...)`: the results
    come back in the order of the names; any job's exception propagates.
   */
  function TreinaTodos(nomes: seq<string>, x: Quadro, y: seq<int>, treina: Treinador)
    : (r: Result<seq<Treinado>, string>)
    ensures r.Failure? <==> exists i :: 0 <= i < |nomes| && treina(nomes[i], x, y).Failure?
    ensures r.Success? ==> |r.value| == |nomes|
    ensures r.Success? ==> forall i :: 0 <= i < |nomes| ==>
      && r.value[i].nome == nomes[i]
      && treina(nomes[i], x, y).Success?
      && r.value[i].modelo == treina(nomes[i], x, y).value.0
      && r.value[i].metricas == Metricas(treina(nomes[i], x, y).value.1)
  {
    if |nomes| == 0 then Success([])
    else
      match treina(nomes[0], x, y)
      case Failure(e) => Failure(e)
      case Success(par) =>
        match TreinaTodos(nomes[1..], x, y, treina)
        case Failure(e) => Failure(e)
        case Success(resto) =>
          Success([Treinado(nomes[0], par.0, Metricas(par.1))] + resto)
  }

  /**
    A dictionary comprehension keyed by name over the results: every name
    is a key, and a later result overrides an earlier one of the same name.
   */
  function PorNome<V>(rs: seq<Treinado>, campo: Treinado -> V): map<string, V> {
    if |rs| == 0 then map[]
    else PorNome(rs[..|rs| - 1], campo)[rs[|rs| - 1].nome := campo(rs[|rs| - 1])]
  }

  /** Every result's name is a key, and nothing else is. */
  lemma {:induction false} PorNomeKeys<V>(rs: seq<Treinado>, campo: Treinado -> V)
    ensures forall n :: n in PorNome(rs, campo) <==> exists i :: 0 <= i < |rs| && rs[i].nome == n
  {
    if |rs| > 0 {
      var init := rs[..|rs| - 1];
      assert PorNome(rs, campo) == PorNome(init, campo)[rs[|rs| - 1].nome := campo(rs[|rs| - 1])];
      PorNomeKeys(init, campo);
      forall n | n in PorNome(rs, campo)
        ensures exists i :: 0 <= i < |rs| && rs[i].nome == n
      {
        if n != rs[|rs| - 1].nome {
          var i :| 0 <= i < |init| && init[i].nome == n;
          assert rs[i].nome == n;
        }
      }
      forall n | exists i :: 0 <= i < |rs| && rs[i].nome == n
        ensures n in PorNome(rs, campo)
      {
        var i :| 0 <= i < |rs| && rs[i].nome == n;
        if i < |init| {
          assert init[i].nome == n;
        }
      }
    }
  }

  /** A result's value is the one stored under its name unless a later result has the same name. */
  lemma {:induction false} PorNomeLaterWins<V>(rs: seq<Treinado>, campo: Treinado -> V, i: nat)
    requires i < |rs| && forall j :: i < j < |rs| ==> rs[j].nome != rs[i].nome
    ensures rs[i].nome in PorNome(rs, campo) && PorNome(rs, campo)[rs[i].nome] == campo(rs[i])
  {
    var init := rs[..|rs| - 1];
    if i < |init| {
      assert rs[i] == init[i];
      PorNomeLaterWins(init, campo, i);
    }
  }

  function ModeloDe(t: Treinado): Objeto { t.modelo }
  function MetricasDe(t: Treinado): map<string, real> { t.metricas }

  /**
    The files step 5 writes, in order: one `modelo_<nome>.pkl` per trained
    model in dictionary order, then encoder.pkl and tfidf.pkl.
   */
  function Gravacoes(rs: seq<Treinado>, encoder: Objeto, tfidf: Objeto): (ws: seq<Arquivo>)
    ensures |ws| == |rs| + 2
    ensures forall i :: 0 <= i < |rs| ==> ws[i] == Arquivo(ArquivoDoModelo(rs[i].nome), Some(rs[i].modelo))
    ensures ws[|rs|] == Arquivo(ArquivoEncoder, Some(encoder))
    ensures ws[|rs| + 1] == Arquivo(ArquivoTfidf, Some(tfidf))
  {
    seq(|rs|, i requires 0 <= i < |rs| => Arquivo(ArquivoDoModelo(rs[i].nome), Some(rs[i].modelo)))
      + [Arquivo(ArquivoEncoder, Some(encoder)), Arquivo(ArquivoTfidf, Some(tfidf))]
  }

  /** The writes applied one after the other. */
  function GravaTodos(dir: Diretorio, ws: seq<Arquivo>): Diretorio {
    if |ws| == 0 then dir
    else Grava(GravaTodos(dir, ws[..|ws| - 1]), ws[|ws| - 1])
  }

  /** No write touches the name of `f`. */
  predicate Intocado(ws: seq<Arquivo>, f: Arquivo) {
    forall w :: w in ws ==> w.nome != f.nome
  }

  /** Every file after the writes was either written or untouched by them. */
  lemma {:induction false} GravaTodosOrigin(dir: Diretorio, ws: seq<Arquivo>, f: Arquivo)
    requires f in GravaTodos(dir, ws)
    ensures (f in dir && Intocado(ws, f)) || f in ws
  {
    if |ws| > 0 {
      var init := ws[..|ws| - 1];
      var ult := ws[|ws| - 1];
      var antes := GravaTodos(dir, init);
      assert ws == init + [ult];
      assert GravaTodos(dir, ws) == Grava(antes, ult);
      WriteOrigin(antes, ult, f);
      if f != ult {
        GravaTodosOrigin(dir, init, f);
      }
    }
  }

  /** A file reads back as the last write to its name. */
  lemma {:induction false} GravaTodosLastWrite(dir: Diretorio, ws: seq<Arquivo>, j: nat)
    requires j < |ws| && forall k :: j < k < |ws| ==> ws[k].nome != ws[j].nome
    ensures Le(GravaTodos(dir, ws), ws[j].nome) == Unpickle(ws[j])
  {
    var init := ws[..|ws| - 1];
    var ult := ws[|ws| - 1];
    var antes := GravaTodos(dir, init);
    assert GravaTodos(dir, ws) == Grava(antes, ult);
    ReadAfterWrite(antes, ult, ws[j].nome);
    if j < |init| {
      var w := ws[j];
      assert init[j] == w && ult.nome != w.nome;
      assert forall k :: j < k < |init| ==> init[k].nome != init[j].nome by {
        forall k | j < k < |init|
          ensures init[k].nome != init[j].nome
        {
          assert init[k] == ws[k];
        }
      }
      GravaTodosLastWrite(dir, init, j);
    }
  }

  /** What a run leaves behind: the cache and the model directory. */
  datatype Treinamento = Treinamento(cache: Cache, dir: Diretorio)

  /**
    `treinar_e_carregar_modelos_em_cache`. Any exception before the cache
    swap leaves cache and disk as they were; after the swap the disk writes
    follow, and `gravavel` says whether they succeed.
   */
  function TreinarECarregarModelosEmCache(
    cache: Cache, dir: Diretorio, prep: Preparado, treina: Treinador, gravavel: bool)
    : (r: Treinamento)
    requires Retangular(prep.quadro)
  {
    if Vazio(prep.quadro) then Treinamento(cache, dir)
    else
      match Rotulos(prep.quadro)
      case Failure(_) => Treinamento(cache, dir)
      case Success(y) =>
        match TreinaTodos(NomesModelos, Features(prep.quadro), y, treina)
        case Failure(_) => Treinamento(cache, dir)
        case Success(rs) =>
          var novo := Cache(PorNome(rs, ModeloDe), PorNome(rs, MetricasDe), Some(prep.encoder), Some(prep.tfidf));
          Treinamento(novo, if gravavel then GravaTodos(dir, Gravacoes(rs, prep.encoder, prep.tfidf)) else dir)
  }

  /** The step that raises before the cache swap, if any: no `rating` column or a failing fit. */
  predicate FalhaAntesDaTroca(prep: Preparado, treina: Treinador)
    requires Retangular(prep.quadro)
  {
    ColunaRating !in prep.quadro.colunas
    || TreinaTodos(NomesModelos, Features(prep.quadro), Rotulos(prep.quadro).value, treina).Failure?
  }

  /** The three model names are distinct and their files are distinct from the artefacts. */
  lemma {:induction false} ModelWritesDistinct(rs: seq<Treinado>, encoder: Objeto, tfidf: Objeto)
    requires |rs| == |NomesModelos| && forall i :: 0 <= i < |rs| ==> rs[i].nome == NomesModelos[i]
    ensures forall j, k :: 0 <= j < k < |rs| + 2 ==>
      Gravacoes(rs, encoder, tfidf)[k].nome != Gravacoes(rs, encoder, tfidf)[j].nome
  {
    // the five file names have five different lengths
    WrittenNameLengths(rs, encoder, tfidf);
  }

  /** The lengths of the five file names a training run writes. */
  lemma WrittenNameLengths(rs: seq<Treinado>, encoder: Objeto, tfidf: Objeto)
    requires |rs| == |NomesModelos| && forall i :: 0 <= i < |rs| ==> rs[i].nome == NomesModelos[i]
    ensures forall i :: 0 <= i < |rs| + 2 ==> |Gravacoes(rs, encoder, tfidf)[i].nome| == [24, 30, 14, 11, 9][i]
  {
    var ws := Gravacoes(rs, encoder, tfidf);
    forall i | 0 <= i < 5
      ensures |ws[i].nome| == [24, 30, 14, 11, 9][i]
    {
      if i < 3 {
        assert ws[i].nome == PrefixoModelo + NomesModelos[i] + SufixoPickle;
      }
    }
  }

  /** A name none of the writes uses reads as it did before them. */
  lemma {:induction false} GravaTodosOtherName(dir: Diretorio, ws: seq<Arquivo>, nome: string)
    requires forall k :: 0 <= k < |ws| ==> ws[k].nome != nome
    ensures Le(GravaTodos(dir, ws), nome) == Le(dir, nome)
    decreases |ws|
  {
    if |ws| > 0 {
      var init := ws[..|ws| - 1];
      assert forall k :: 0 <= k < |init| ==> init[k] == ws[k];
      GravaTodosOtherName(dir, init, nome);
      ReadAfterWrite(GravaTodos(dir, init), ws[|ws| - 1], nome);
    }
  }

  /** After a successful run on a writable disk every artefact reads back. */
  lemma {:induction false} TrainedFilesReadBack(dir: Diretorio, rs: seq<Treinado>, encoder: Objeto, tfidf: Objeto)
    requires |rs| == |NomesModelos| && forall i :: 0 <= i < |rs| ==> rs[i].nome == NomesModelos[i]
    ensures forall i :: 0 <= i < |rs| ==>
      Le(GravaTodos(dir, Gravacoes(rs, encoder, tfidf)), ArquivoDoModelo(rs[i].nome)) == Lido(rs[i].modelo)
    ensures Le(GravaTodos(dir, Gravacoes(rs, encoder, tfidf)), ArquivoEncoder) == Lido(encoder)
    ensures Le(GravaTodos(dir, Gravacoes(rs, encoder, tfidf)), ArquivoTfidf) == Lido(tfidf)
  {
    var ws := Gravacoes(rs, encoder, tfidf);
    ModelWritesDistinct(rs, encoder, tfidf);
    forall i | 0 <= i < |rs|
      ensures Le(GravaTodos(dir, ws), ArquivoDoModelo(rs[i].nome)) == Lido(rs[i].modelo)
    {
      GravaTodosLastWrite(dir, ws, i);
    }
    GravaTodosLastWrite(dir, ws, |rs|);
    GravaTodosLastWrite(dir, ws, |rs| + 1);
  }

  /** An empty frame or an exception before the swap changes neither cache nor disk. */
  lemma TrainingFailureChangesNothing(cache: Cache, dir: Diretorio, prep: Preparado, treina: Treinador, gravavel: bool)
    requires Retangular(prep.quadro)
    requires Vazio(prep.quadro) || FalhaAntesDaTroca(prep, treina)
    ensures TreinarECarregarModelosEmCache(cache, dir, prep, treina, gravavel) == Treinamento(cache, dir)
  {
  }

  /** A disk that refuses the writes is left alone. */
  lemma ReadOnlyDiskUntouched(cache: Cache, dir: Diretorio, prep: Preparado, treina: Treinador)
    requires Retangular(prep.quadro)
    ensures TreinarECarregarModelosEmCache(cache, dir, prep, treina, false).dir == dir
  {
  }

  /**
    A successful run swaps in exactly the three freshly fitted models with
    their two metrics each, and the new encoder and vectoriser — whether or
    not the disk then accepts the writes.
   */
  lemma {:induction false} TrainingSwapsCache(cache: Cache, dir: Diretorio, prep: Preparado, treina: Treinador, gravavel: bool)
    requires Retangular(prep.quadro)
    requires !Vazio(prep.quadro) && !FalhaAntesDaTroca(prep, treina)
    ensures var c := TreinarECarregarModelosEmCache(cache, dir, prep, treina, gravavel).cache;
      var x := Features(prep.quadro);
      var y := Rotulos(prep.quadro).value;
      && c.encoderProd == Some(prep.encoder)
      && c.tfidfProd == Some(prep.tfidf)
      && (forall n :: n in c.modelos <==> n in NomesModelos)
      && (forall n :: n in c.metricas <==> n in NomesModelos)
      && (forall n :: n in NomesModelos ==>
            && treina(n, x, y).Success?
            && c.modelos[n] == treina(n, x, y).value.0
            && c.metricas[n] == Metricas(treina(n, x, y).value.1))
  {
    var x := Features(prep.quadro);
    var y := Rotulos(prep.quadro).value;
    var rs := TreinaTodos(NomesModelos, x, y, treina).value;
    var c := TreinarECarregarModelosEmCache(cache, dir, prep, treina, gravavel).cache;
    assert c == Cache(PorNome(rs, ModeloDe), PorNome(rs, MetricasDe), Some(prep.encoder), Some(prep.tfidf));
    ModelsByName(rs);
    MetricsByName(rs);
  }

  /** After a successful run on a writable disk the models and both artefacts read back from their files. */
  lemma {:induction false} TrainingPersists(cache: Cache, dir: Diretorio, prep: Preparado, treina: Treinador)
    requires Retangular(prep.quadro)
    requires !Vazio(prep.quadro) && !FalhaAntesDaTroca(prep, treina)
    ensures var r := TreinarECarregarModelosEmCache(cache, dir, prep, treina, true);
      && Le(r.dir, ArquivoEncoder) == Lido(prep.encoder)
      && Le(r.dir, ArquivoTfidf) == Lido(prep.tfidf)
      && forall n :: n in NomesModelos ==> n in r.cache.modelos && Le(r.dir, ArquivoDoModelo(n)) == Lido(r.cache.modelos[n])
  {
    var x := Features(prep.quadro);
    var y := Rotulos(prep.quadro).value;
    var rs := TreinaTodos(NomesModelos, x, y, treina).value;
    var r := TreinarECarregarModelosEmCache(cache, dir, prep, treina, true);
    assert r.dir == GravaTodos(dir, Gravacoes(rs, prep.encoder, prep.tfidf));
    TrainingSwapsCache(cache, dir, prep, treina, true);
    TrainedFilesReadBack(dir, rs, prep.encoder, prep.tfidf);
  }

  /** The three model names survive the round trip through their file names. */
  lemma ModelNamesRoundTrip()
    ensures forall n :: n in NomesModelos ==>
      EhArquivoDeModelo(ArquivoDoModelo(n)) && NomeDoModelo(ArquivoDoModelo(n)) == n
  {
    // 'l' of "modelo_" is missing from two names, its 'm' from the third;
    // none has the '.' of ".pkl".
    ModelNameRoundTrip("random_forest", 4);
    ModelNameRoundTrip("regressao_logistica", 0);
    ModelNameRoundTrip("svm", 4);
  }

  /** One model name round trip, given a character of "modelo_" the name lacks. */
  lemma ModelNameRoundTrip(n: string, k: nat)
    requires k < |PrefixoModelo| && PrefixoModelo[k] !in n && '.' !in n
    ensures EhArquivoDeModelo(ArquivoDoModelo(n)) && NomeDoModelo(ArquivoDoModelo(n)) == n
  {
    AbsentCharNotContained(n, PrefixoModelo, k);
    AbsentCharNotContained(n, SufixoPickle, 0);
    ModelFileNameRoundTrip(n);
  }

  /** In a freshly trained directory every model file is one the run wrote. */
  lemma {:induction false} TrainedModelFileOrigin(dir: Diretorio, rs: seq<Treinado>, encoder: Objeto, tfidf: Objeto, f: Arquivo)
    requires forall g :: g in dir ==> !EhArquivoDeModelo(g.nome)
    requires f in GravaTodos(dir, Gravacoes(rs, encoder, tfidf)) && EhArquivoDeModelo(f.nome)
    ensures exists j :: 0 <= j < |rs| && f == Arquivo(ArquivoDoModelo(rs[j].nome), Some(rs[j].modelo))
  {
    var ws := Gravacoes(rs, encoder, tfidf);
    GravaTodosOrigin(dir, ws, f);
    ArtefactFilesAreNotModels();
    var j :| 0 <= j < |ws| && f == ws[j];
    assert j < |rs|;
  }

  lemma {:induction false} TrainedLoadSucceeds(dir: Diretorio, rs: seq<Treinado>, encoder: Objeto, tfidf: Objeto)
    requires forall g :: g in dir ==> !EhArquivoDeModelo(g.nome)
    ensures CarregaModelos(GravaTodos(dir, Gravacoes(rs, encoder, tfidf))).Some?
  {
    var d := GravaTodos(dir, Gravacoes(rs, encoder, tfidf));
    forall f | f in d && EhArquivoDeModelo(f.nome)
      ensures f.conteudo.Some?
    {
      TrainedModelFileOrigin(dir, rs, encoder, tfidf, f);
    }
  }

  lemma {:induction false} LoadedAreTrained(dir: Diretorio, rs: seq<Treinado>, encoder: Objeto, tfidf: Objeto, m: map<string, Objeto>)
    requires forall g :: g in dir ==> !EhArquivoDeModelo(g.nome)
    requires |rs| == |NomesModelos| && forall i :: 0 <= i < |rs| ==> rs[i].nome == NomesModelos[i]
    requires forall n :: n in m <==> n in NomesModelos
    requires forall i :: 0 <= i < |rs| ==> m[NomesModelos[i]] == rs[i].modelo
    requires CarregaModelos(GravaTodos(dir, Gravacoes(rs, encoder, tfidf))).Some?
    ensures forall n :: n in CarregaModelos(GravaTodos(dir, Gravacoes(rs, encoder, tfidf))).value ==>
      n in m && CarregaModelos(GravaTodos(dir, Gravacoes(rs, encoder, tfidf))).value[n] == m[n]
  {
    var d := GravaTodos(dir, Gravacoes(rs, encoder, tfidf));
    var carregados := CarregaModelos(d).value;
    ModelNamesRoundTrip();
    forall n | n in carregados
      ensures n in m && carregados[n] == m[n]
    {
      var f :| f in d && EhArquivoDeModelo(f.nome) && NomeDoModelo(f.nome) == n
               && f.conteudo == Some(carregados[n]);
      TrainedModelFileOrigin(dir, rs, encoder, tfidf, f);
      var j :| 0 <= j < |rs| && f == Arquivo(ArquivoDoModelo(rs[j].nome), Some(rs[j].modelo));
      assert rs[j].nome == NomesModelos[j] && NomesModelos[j] in NomesModelos;
    }
  }

  lemma {:induction false} TrainedAreLoaded(dir: Diretorio, rs: seq<Treinado>, encoder: Objeto, tfidf: Objeto)
    requires |rs| == |NomesModelos| && forall i :: 0 <= i < |rs| ==> rs[i].nome == NomesModelos[i]
    requires CarregaModelos(GravaTodos(dir, Gravacoes(rs, encoder, tfidf))).Some?
    ensures forall n :: n in NomesModelos ==> n in CarregaModelos(GravaTodos(dir, Gravacoes(rs, encoder, tfidf))).value
  {
    var d := GravaTodos(dir, Gravacoes(rs, encoder, tfidf));
    ModelNamesRoundTrip();
    TrainedFilesReadBack(dir, rs, encoder, tfidf);
    forall n | n in NomesModelos
      ensures n in CarregaModelos(d).value
    {
      var j :| 0 <= j < |NomesModelos| && NomesModelos[j] == n;
      assert Le(d, ArquivoDoModelo(rs[j].nome)) == Lido(rs[j].modelo);
      ReadFindsFile(d, ArquivoDoModelo(rs[j].nome));
      assert Arquivo(ArquivoDoModelo(n), Some(rs[j].modelo)) in d;
    }
  }

  /** The model dictionary of a full set of results is keyed by the three names. */
  lemma {:induction false} ModelsByName(rs: seq<Treinado>)
    requires |rs| == |NomesModelos| && forall i :: 0 <= i < |rs| ==> rs[i].nome == NomesModelos[i]
    ensures forall n :: n in PorNome(rs, ModeloDe) <==> n in NomesModelos
    ensures forall i :: 0 <= i < |rs| ==> PorNome(rs, ModeloDe)[NomesModelos[i]] == rs[i].modelo
  {
    PorNomeKeys(rs, ModeloDe);
    forall i | 0 <= i < |rs|
      ensures PorNome(rs, ModeloDe)[NomesModelos[i]] == rs[i].modelo
    {
      PorNomeLaterWins(rs, ModeloDe, i);
    }
  }

  /** The metrics dictionary of a full set of results is keyed by the three names. */
  lemma {:induction false} MetricsByName(rs: seq<Treinado>)
    requires |rs| == |NomesModelos| && forall i :: 0 <= i < |rs| ==> rs[i].nome == NomesModelos[i]
    ensures forall n :: n in PorNome(rs, MetricasDe) <==> n in NomesModelos
    ensures forall i :: 0 <= i < |rs| ==> PorNome(rs, MetricasDe)[NomesModelos[i]] == rs[i].metricas
  {
    PorNomeKeys(rs, MetricasDe);
    forall i | 0 <= i < |rs|
      ensures PorNome(rs, MetricasDe)[NomesModelos[i]] == rs[i].metricas
    {
      PorNomeLaterWins(rs, MetricasDe, i);
    }
  }

  lemma MapExt<K, V>(a: map<K, V>, b: map<K, V>)
    requires forall k :: k in a ==> k in b && a[k] == b[k]
    requires forall k :: k in b ==> k in a
    ensures a == b
  {
  }

  /** Loading a freshly trained directory gives back exactly the trained models. */
  lemma {:induction false} LoadTrainedDirectory(dir: Diretorio, rs: seq<Treinado>, encoder: Objeto, tfidf: Objeto, m: map<string, Objeto>)
    requires forall g :: g in dir ==> !EhArquivoDeModelo(g.nome)
    requires |rs| == |NomesModelos| && forall i :: 0 <= i < |rs| ==> rs[i].nome == NomesModelos[i]
    requires forall n :: n in m <==> n in NomesModelos
    requires forall i :: 0 <= i < |rs| ==> m[NomesModelos[i]] == rs[i].modelo
    ensures CarregaModelos(GravaTodos(dir, Gravacoes(rs, encoder, tfidf))) == Some(m)
  {
    TrainedLoadSucceeds(dir, rs, encoder, tfidf);
    LoadedAreTrained(dir, rs, encoder, tfidf, m);
    TrainedAreLoaded(dir, rs, encoder, tfidf);
    var carregados := CarregaModelos(GravaTodos(dir, Gravacoes(rs, encoder, tfidf))).value;
    forall n | n in m
      ensures n in carregados
    {
      assert n in NomesModelos;
    }
    MapExt(carregados, m);
  }

  /**
    Training followed by a later `carregar_modelos_do_disco` on the written
    directory yields the same models and artefacts the training put in the
    cache, provided the directory held no other model files. The metrics are not persisted, so the load keeps
    whatever metrics the cache had.
   */
  lemma {:induction false} TrainThenLoad(cache: Cache, dir: Diretorio, prep: Preparado, treina: Treinador, outro: Cache)
    requires Retangular(prep.quadro)
    requires !Vazio(prep.quadro) && !FalhaAntesDaTroca(prep, treina)
    requires forall f :: f in dir ==> !EhArquivoDeModelo(f.nome)
    ensures var r := TreinarECarregarModelosEmCache(cache, dir, prep, treina, true);
      var c := CarregarModelosDoDisco(outro, r.dir);
      && c.modelos == r.cache.modelos
      && c.encoderProd == r.cache.encoderProd
      && c.tfidfProd == r.cache.tfidfProd
      && c.metricas == outro.metricas
  {
    var x := Features(prep.quadro);
    var y := Rotulos(prep.quadro).value;
    var rs := TreinaTodos(NomesModelos, x, y, treina).value;
    var r := TreinarECarregarModelosEmCache(cache, dir, prep, treina, true);
    assert r == Treinamento(
      Cache(PorNome(rs, ModeloDe), PorNome(rs, MetricasDe), Some(prep.encoder), Some(prep.tfidf)),
      GravaTodos(dir, Gravacoes(rs, prep.encoder, prep.tfidf)));
    ModelsByName(rs);
    TrainedFilesReadBack(dir, rs, prep.encoder, prep.tfidf);
    LoadTrainedDirectory(dir, rs, prep.encoder, prep.tfidf, r.cache.modelos);
  }
}
