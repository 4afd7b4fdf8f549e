/**
  The prediction service (rotas/api_ml.py): its own three-slot artefact
  cache, loaded from disk at start-up, and the `/predictions` endpoint that
  aligns one book's features with the model's columns.
 */
module ApiMl {
  import opened Wrappers
  import opened Seqs
  import opened Modelos
  import opened GerenciadorDeModelos
  import opened TreinamentoModelo

  /** The endpoint's own cache; it is a separate dictionary from the training cache. */
  datatype CacheServico = CacheServico(modelo: Option<Objeto>, encoder: Option<Objeto>, tfidf: Option<Objeto>)

  const CacheVazio: CacheServico := CacheServico(None, None, None)

  const ArquivoModeloLivros: string := "modelo_livros.pkl"
  const ArquivoEncoderLivros: string := "encoder_livros.pkl"
  const ArquivoTfidfLivros: string := "tfidf_livros.pkl"

  /**
    The cache after `carregar_modelo_e_encoder`, and the unpickling error
    that escaped it, if any (only `FileNotFoundError` is caught).
   */
  datatype Carga = Carga(cache: CacheServico, erro: Option<string>)

  const ErroUnpickle: string := "UnpicklingError"

  /**
    `carregar_modelo_e_encoder`: the three files are read in order; a
    missing one clears all three slots; one that cannot be unpickled
    escapes with the slots filled so far.
   */
  function CarregarModeloEEncoder(cache: CacheServico, dir: Diretorio): (r: Carga)
    ensures r.erro.None? ==>
      r.cache == CacheVazio || (r.cache.modelo.Some? && r.cache.encoder.Some? && r.cache.tfidf.Some?)
    ensures r.erro.None? <==>
      !Le(dir, ArquivoModeloLivros).Ilegivel?
      && (Le(dir, ArquivoModeloLivros).Lido? ==> !Le(dir, ArquivoEncoderLivros).Ilegivel?)
      && (Le(dir, ArquivoModeloLivros).Lido? && Le(dir, ArquivoEncoderLivros).Lido? ==>
            !Le(dir, ArquivoTfidfLivros).Ilegivel?)
    ensures Le(dir, ArquivoModeloLivros).Lido? && Le(dir, ArquivoEncoderLivros).Lido?
            && Le(dir, ArquivoTfidfLivros).Lido? ==>
      r == Carga(CacheServico(Some(Le(dir, ArquivoModeloLivros).objeto),
                              Some(Le(dir, ArquivoEncoderLivros).objeto),
                              Some(Le(dir, ArquivoTfidfLivros).objeto)), None)
    ensures Le(dir, ArquivoModeloLivros).Ausente? ==> r == Carga(CacheVazio, None)
    ensures Le(dir, ArquivoModeloLivros).Lido? && Le(dir, ArquivoEncoderLivros).Ausente? ==>
      r == Carga(CacheVazio, None)
    ensures Le(dir, ArquivoModeloLivros).Lido? && Le(dir, ArquivoEncoderLivros).Lido?
            && Le(dir, ArquivoTfidfLivros).Ausente? ==>
      r == Carga(CacheVazio, None)
  {
    match Le(dir, ArquivoModeloLivros)
    case Ausente => Carga(CacheVazio, None)
    case Ilegivel => Carga(cache, Some(ErroUnpickle))
    case Lido(modelo) =>
      var c1 := cache.(modelo := Some(modelo));
      match Le(dir, ArquivoEncoderLivros)
      case Ausente => Carga(CacheVazio, None)
      case Ilegivel => Carga(c1, Some(ErroUnpickle))
      case Lido(encoder) =>
        var c2 := c1.(encoder := Some(encoder));
        match Le(dir, ArquivoTfidfLivros)
        case Ausente => Carga(CacheVazio, None)
        case Ilegivel => Carga(c2, Some(ErroUnpickle))
        case Lido(tfidf) => Carga(c2.(tfidf := Some(tfidf)), None)
  }

  /** The request body (`LivroBase`); it has the scraped record's fields. */
  type LivroBase = DadosLivro

  /** One row of a DataFrame: its column labels and values, in column order. */
  type Linha = seq<(string, real)>

  function Colunas(row: Linha): (r: seq<string>)
    ensures |r| == |row| && forall i :: 0 <= i < |row| ==> r[i] == row[i].0
  {
    seq(|row|, i requires 0 <= i < |row| => row[i].0)
  }

  /**
    The scikit-learn calls the endpoint makes, left uninterpreted: the
    encoder's and the vectoriser's `transform` with their feature names, the
    model's `feature_names_in_` and `predict`. Each can raise.
   */
  datatype Ml = Ml(
    codificaCategoria: (Objeto, string) -> Result<Linha, string>,
    vetorizaTitulo: (Objeto, string) -> Result<Linha, string>,
    colunasDoModelo: Objeto -> Result<seq<string>, string>,
    prediz: (Objeto, Linha) -> Result<int, string>)

  /** The numeric features, `disponibilidade` cast to an integer. */
  function Numericas(livro: LivroBase): (r: Linha)
    ensures Colunas(r) == ["preco", "rating", "disponibilidade"]
    ensures r[0].1 == livro.preco && r[1].1 == livro.rating as real
    ensures r[2].1 == 1.0 <==> livro.disponibilidade
    ensures r[2].1 == 0.0 <==> !livro.disponibilidade
  {
    [("preco", livro.preco), ("rating", livro.rating as real),
     ("disponibilidade", if livro.disponibilidade then 1.0 else 0.0)]
  }

  /** The value under label `c`, when `row` has that label. */
  function Valor(row: Linha, c: string): (v: real)
    requires c in Colunas(row)
    ensures (c, v) in row
  {
    if row[0].0 == c then row[0].1
    else
      assert Colunas(row[1..]) == Colunas(row)[1..];
      Valor(row[1..], c)
  }

  /**
    `DataFrame.reindex(columns=colunas, fill_value=0)`: exactly the requested
    columns in the requested order; a requested column the row has keeps its
    value, one it lacks is 0. pandas refuses to reindex a frame whose own
    labels repeat.
   */
  function Reindexa(row: Linha, colunas: seq<string>): (r: Result<Linha, string>)
    ensures r.Failure? <==> !NoDup(Colunas(row))
    ensures r.Success? ==> Colunas(r.value) == colunas
    ensures r.Success? ==> forall i :: 0 <= i < |colunas| ==>
      (colunas[i] in Colunas(row) ==> (colunas[i], r.value[i].1) in row)
      && (colunas[i] !in Colunas(row) ==> r.value[i].1 == 0.0)
  {
    if !NoDup(Colunas(row)) then Failure("cannot reindex on an axis with duplicate labels")
    else Success(seq(|colunas|, i requires 0 <= i < |colunas| =>
      (colunas[i], if colunas[i] in Colunas(row) then Valor(row, colunas[i]) else 0.0)))
  }

  /**
    `_preparar_input_para_predicao`: numeric, category and title features
    concatenated, then aligned with the model's columns. A missing
    artefact is an `AttributeError` on `None`.
   */
  function PrepararInput(livro: LivroBase, cache: CacheServico, ml: Ml): (r: Result<Linha, string>)
    ensures cache.encoder.None? || cache.tfidf.None? || cache.modelo.None? ==> r.Failure?
    ensures r.Success? ==>
      && cache.modelo.Some?
      && ml.colunasDoModelo(cache.modelo.value).Success?
      && Colunas(r.value) == ml.colunasDoModelo(cache.modelo.value).value
  {
    if cache.encoder.None? then Failure("'NoneType' object has no attribute 'transform'")
    else match ml.codificaCategoria(cache.encoder.value, livro.categoria)
      case Failure(e) => Failure(e)
      case Success(categorias) =>
        if cache.tfidf.None? then Failure("'NoneType' object has no attribute 'transform'")
        else match ml.vetorizaTitulo(cache.tfidf.value, livro.titulo)
          case Failure(e) => Failure(e)
          case Success(titulos) =>
            if cache.modelo.None? then Failure("'NoneType' object has no attribute 'feature_names_in_'")
            else match ml.colunasDoModelo(cache.modelo.value)
              case Failure(e) => Failure(e)
              case Success(colunas) => Reindexa(Numericas(livro) + categorias + titulos, colunas)
  }

  /** The body of a successful prediction. */
  datatype RespostaPredicao = RespostaPredicao(livro: string, ratingPredito: int)

  const DetalheSemModelo: string :=
    "Modelo não está carregado. Treine o modelo ou verifique os logs do servidor."

  /**
    `get_prediction`: 503 when no model is loaded, before any preprocessing;
    400 for any error in preprocessing or prediction; otherwise the title
    and the predicted class.
   */
  function GetPrediction(cache: CacheServico, livro: LivroBase, ml: Ml): (r: Result<RespostaPredicao, ErroHttp>)
    ensures cache.modelo.None? ==> r == Failure(ErroHttp(503, DetalheSemModelo))
    ensures cache.modelo.Some? && r.Failure? ==> r.error.status == 400
    ensures cache.modelo.Some? ==>
      (r.Success? <==> PrepararInput(livro, cache, ml).Success?
                       && ml.prediz(cache.modelo.value, PrepararInput(livro, cache, ml).value).Success?)
    ensures r.Success? ==>
      && r.value.livro == livro.titulo
      && r.value.ratingPredito == ml.prediz(cache.modelo.value, PrepararInput(livro, cache, ml).value).value
  {
    if cache.modelo.None? then Failure(ErroHttp(503, DetalheSemModelo))
    else match PrepararInput(livro, cache, ml)
      case Failure(e) => Failure(ErroHttp(400, "Erro ao processar os dados de entrada: " + e))
      case Success(entrada) =>
        match ml.prediz(cache.modelo.value, entrada)
        case Failure(e) => Failure(ErroHttp(400, "Erro ao processar os dados de entrada: " + e))
        case Success(classe) => Success(RespostaPredicao(livro.titulo, classe))
  }

  /** The feature row before alignment, when both artefacts transform the book. */
  function Completo(livro: LivroBase, cache: CacheServico, ml: Ml): Option<Linha> {
    if cache.encoder.None? || cache.tfidf.None? then None
    else match (ml.codificaCategoria(cache.encoder.value, livro.categoria),
                ml.vetorizaTitulo(cache.tfidf.value, livro.titulo))
      case (Success(categorias), Success(titulos)) => Some(Numericas(livro) + categorias + titulos)
      case _ => None
  }

  /**
    Alignment: in a prepared row every model column the book's features
    have keeps its value, every other model column is 0, and a feature the
    model does not know is dropped.
   */
  lemma PreparedRowAligned(livro: LivroBase, cache: CacheServico, ml: Ml)
    requires PrepararInput(livro, cache, ml).Success?
    ensures Completo(livro, cache, ml).Some?
    ensures var r := PrepararInput(livro, cache, ml).value;
      var completo := Completo(livro, cache, ml).value;
      && NoDup(Colunas(completo))
      && (forall i :: 0 <= i < |r| && r[i].0 in Colunas(completo) ==> r[i] in completo)
      && (forall i :: 0 <= i < |r| && r[i].0 !in Colunas(completo) ==> r[i].1 == 0.0)
      && (forall c :: c in Colunas(completo) && c !in Colunas(r) ==> c !in ml.colunasDoModelo(cache.modelo.value).value)
  {
  }

  /**
    The numeric features reach the model unchanged wherever the model has
    their column: the price, the rating, and availability as 1 or 0.
   */
  lemma {:induction false} NumericFeaturesKept(livro: LivroBase, cache: CacheServico, ml: Ml, i: nat)
    requires PrepararInput(livro, cache, ml).Success?
    requires i < |PrepararInput(livro, cache, ml).value|
    ensures var r := PrepararInput(livro, cache, ml).value;
      && (r[i].0 == "preco" ==> r[i].1 == livro.preco)
      && (r[i].0 == "rating" ==> r[i].1 == livro.rating as real)
      && (r[i].0 == "disponibilidade" ==> (r[i].1 == 1.0 <==> livro.disponibilidade))
      && (r[i].0 == "disponibilidade" ==> (r[i].1 == 0.0 <==> !livro.disponibilidade))
  {
    PreparedRowAligned(livro, cache, ml);
    var r := PrepararInput(livro, cache, ml).value;
    var completo := Completo(livro, cache, ml).value;
    var num := Numericas(livro);
    assert completo[..3] == num;
    var cs := Colunas(completo);
    if r[i].0 in ["preco", "rating", "disponibilidade"] {
      var k :| 0 <= k < 3 && num[k].0 == r[i].0;
      assert cs[k] == r[i].0;
      var j :| 0 <= j < |completo| && completo[j] == r[i];
      assert cs[j] == r[i].0;
      assert j == k;
    }
  }

  /**
    The prediction service never picks up a trained model: a training run
    writes `modelo_<nome>.pkl`, encoder.pkl and tfidf.pkl, while the loader
    the application calls at start-up reads modelo_livros.pkl,
    encoder_livros.pkl and tfidf_livros.pkl. Unless a modelo_livros.pkl was
    already there, loading after training leaves all three slots empty.
   */
  lemma TrainedModelNotServed(cache: Cache, dir: Diretorio, prep: Preparado, treina: Treinador,
                              gravavel: bool, servico: CacheServico)
    requires Retangular(prep.quadro)
    requires Le(dir, ArquivoModeloLivros).Ausente?
    ensures CarregarModeloEEncoder(servico, TreinarECarregarModelosEmCache(cache, dir, prep, treina, gravavel).dir)
      == Carga(CacheVazio, None)
  {
    var r := TreinarECarregarModelosEmCache(cache, dir, prep, treina, gravavel);
    if r.dir != dir {
      var y := Rotulos(prep.quadro).value;
      var rs := TreinaTodos(NomesModelos, Features(prep.quadro), y, treina).value;
      var ws := Gravacoes(rs, prep.encoder, prep.tfidf);
      assert r.dir == GravaTodos(dir, ws);
      WrittenNameLengths(rs, prep.encoder, prep.tfidf);
      assert |ArquivoModeloLivros| == 17;
      GravaTodosOtherName(dir, ws, ArquivoModeloLivros);
    }
  }
}
