/**
  The in-memory model cache and its start-up load from the `modelos_ml`
  directory (ml/gerenciador_de_modelos.py).
 */
module GerenciadorDeModelos {
  import opened Wrappers
  import opened Text
  import opened Modelos

  /**
    A file of the model directory: its name and what `pickle.load` returns
    for it, or `None` when unpickling raises.
   */
  datatype Arquivo = Arquivo(nome: string, conteudo: Option<Objeto>)

  /** The directory as `os.listdir` lists it. */
  type Diretorio = seq<Arquivo>

  /**
    The cache dictionary without its lock: trained models and their metrics
    by model name, and the production encoder and TF-IDF vectoriser.
   */
  datatype Cache = Cache(
    modelos: map<string, Objeto>,
    metricas: map<string, map<string, real>>,
    encoderProd: Option<Objeto>,
    tfidfProd: Option<Objeto>)

  const PrefixoModelo: string := "modelo_"
  const SufixoPickle: string := ".pkl"
  const ArquivoEncoder: string := "encoder.pkl"
  const ArquivoTfidf: string := "tfidf.pkl"

  /** The cache the module starts with. */
  const CacheInicial: Cache := Cache(map[], map[], None, None)

  /** Only names starting with "modelo_" and ending with ".pkl" are model files. */
  predicate EhArquivoDeModelo(nome: string) {
    StartsWith(nome, PrefixoModelo) && EndsWith(nome, SufixoPickle)
  }

  /** `filename.replace('modelo_', '').replace('.pkl', '')`: every occurrence goes. */
  function NomeDoModelo(arquivo: string): string {
    ReplaceAll(ReplaceAll(arquivo, PrefixoModelo, ""), SufixoPickle, "")
  }

  /** The file name training gives model `nome`: `f'modelo_{nome_modelo}.pkl'`. */
  function ArquivoDoModelo(nome: string): string {
    PrefixoModelo + nome + SufixoPickle
  }

  /** A character of `p` that `s` lacks keeps `p` out of `s`. */
  lemma AbsentCharNotContained(s: string, p: string, k: nat)
    requires k < |p| && p[k] !in s
    ensures !Contains(s, p)
  {
    ContainsOccurs(s, p);
    forall i | 0 <= i <= |s| - |p|
      ensures !OccursAt(s, p, i)
    {
      assert s[i..i + |p|][k] == s[i + k];
    }
  }

  /** Inside `nome + ".pkl"` there is no "modelo_" when `nome` has none. */
  lemma NoPrefixBeforeSuffix(nome: string)
    requires !Contains(nome, PrefixoModelo)
    ensures !Contains(nome + SufixoPickle, PrefixoModelo)
  {
    var t := nome + SufixoPickle;
    ContainsOccurs(nome, PrefixoModelo);
    ContainsOccurs(t, PrefixoModelo);
    forall i | 0 <= i <= |t| - |PrefixoModelo|
      ensures !OccursAt(t, PrefixoModelo, i)
    {
      if i + |PrefixoModelo| <= |nome| {
        assert t[i..i + |PrefixoModelo|] == nome[i..i + |PrefixoModelo|];
        assert !OccursAt(nome, PrefixoModelo, i);
      } else {
        // the window would hold the '.' of ".pkl", which "modelo_" lacks
        assert t[|nome|] == '.';
        assert PrefixoModelo[|nome| - i] != '.';
        assert t[i..i + |PrefixoModelo|][|nome| - i] == t[|nome|];
      }
    }
  }

  /** No ".pkl" starts inside `nome` in `nome + ".pkl"` when `nome` has none. */
  lemma NoSuffixInsideName(nome: string, i: nat)
    requires !Contains(nome, SufixoPickle) && i < |nome|
    ensures !OccursAt(nome + SufixoPickle, SufixoPickle, i)
  {
    var t := nome + SufixoPickle;
    ContainsOccurs(nome, SufixoPickle);
    if i + |SufixoPickle| <= |nome| {
      assert t[i..i + |SufixoPickle|] == nome[i..i + |SufixoPickle|];
      assert !OccursAt(nome, SufixoPickle, i);
    } else if i + |SufixoPickle| <= |t| {
      // the window would need a second '.', at offset |nome| - i > 0
      assert t[|nome|] == '.';
      assert SufixoPickle[|nome| - i] != '.';
      assert t[i..i + |SufixoPickle|][|nome| - i] == t[|nome|];
    }
  }

  /** Stripping "modelo_" from a model-file name leaves `nome + ".pkl"`. */
  lemma StripPrefix(nome: string)
    requires !Contains(nome, PrefixoModelo)
    ensures ReplaceAll(ArquivoDoModelo(nome), PrefixoModelo, "") == nome + SufixoPickle
  {
    var s := ArquivoDoModelo(nome);
    assert s[..|PrefixoModelo|] == PrefixoModelo;
    assert s[|PrefixoModelo|..] == nome + SufixoPickle;
    NoPrefixBeforeSuffix(nome);
    ReplaceAllNoOccurrence(nome + SufixoPickle, PrefixoModelo, "");
  }

  /** Stripping ".pkl" from `nome + ".pkl"` leaves `nome`. */
  lemma StripSuffix(nome: string)
    requires !Contains(nome, SufixoPickle)
    ensures ReplaceAll(nome + SufixoPickle, SufixoPickle, "") == nome
  {
    forall i | 0 <= i < |nome|
      ensures !OccursAt(nome + SufixoPickle, SufixoPickle, i)
    {
      NoSuffixInsideName(nome, i);
    }
    ReplaceAllKeepsPrefix(nome, SufixoPickle, SufixoPickle, "");
    assert ReplaceAll(SufixoPickle, SufixoPickle, "") == "" by {
      assert SufixoPickle[|SufixoPickle|..] == "";
    }
    assert nome + "" == nome;
  }

  /**
    The file-name round trip: a model name containing neither "modelo_" nor
    ".pkl" is saved under a model-file name that loads back as itself.
   */
  lemma ModelFileNameRoundTrip(nome: string)
    requires !Contains(nome, PrefixoModelo) && !Contains(nome, SufixoPickle)
    ensures EhArquivoDeModelo(ArquivoDoModelo(nome))
    ensures NomeDoModelo(ArquivoDoModelo(nome)) == nome
  {
    var s := ArquivoDoModelo(nome);
    assert s[..|PrefixoModelo|] == PrefixoModelo;
    assert s[|s| - |SufixoPickle|..] == SufixoPickle;
    StripPrefix(nome);
    StripSuffix(nome);
  }

  /**
    Every occurrence of "modelo_" is stripped, not just the leading one: a
    model trained under the name "modelo_" + n is loaded back as n.
   */
  lemma InnerPrefixAlsoStripped(nome: string)
    requires !Contains(nome, PrefixoModelo) && !Contains(nome, SufixoPickle)
    ensures EhArquivoDeModelo(ArquivoDoModelo(PrefixoModelo + nome))
    ensures NomeDoModelo(ArquivoDoModelo(PrefixoModelo + nome)) == nome
  {
    var s := ArquivoDoModelo(PrefixoModelo + nome);
    assert s == PrefixoModelo + ArquivoDoModelo(nome);
    assert s[..|PrefixoModelo|] == PrefixoModelo;
    assert s[|PrefixoModelo|..] == ArquivoDoModelo(nome);
    assert s[|s| - |SufixoPickle|..] == SufixoPickle;
    StripPrefix(nome);
    assert ReplaceAll(s, PrefixoModelo, "") == nome + SufixoPickle by {
      assert ReplaceAll(s, PrefixoModelo, "") == "" + ReplaceAll(ArquivoDoModelo(nome), PrefixoModelo, "");
    }
    StripSuffix(nome);
  }

  /** The artefact files are not model files, so they are never loaded as models. */
  lemma ArtefactFilesAreNotModels()
    ensures !EhArquivoDeModelo(ArquivoEncoder)
    ensures !EhArquivoDeModelo(ArquivoTfidf)
  {
    assert ArquivoEncoder[..|PrefixoModelo|] != PrefixoModelo by {
      assert ArquivoEncoder[0] != PrefixoModelo[0];
    }
    assert ArquivoTfidf[..|PrefixoModelo|] != PrefixoModelo by {
      assert ArquivoTfidf[0] != PrefixoModelo[0];
    }
  }

  /** The three ways opening and unpickling one named file can end. */
  datatype Leitura = Lido(objeto: Objeto) | Ausente | Ilegivel

  /** `pickle.load` of one file that exists. */
  function Unpickle(f: Arquivo): Leitura {
    match f.conteudo
    case Some(o) => Lido(o)
    case None => Ilegivel
  }

  /** `open(os.path.join(modelo_dir, nome))` followed by `pickle.load` on the first file of that name. */
  function Le(dir: Diretorio, nome: string): Leitura
    decreases |dir|
  {
    if |dir| == 0 then Ausente
    else if dir[0].nome == nome then Unpickle(dir[0])
    else Le(dir[1..], nome)
  }

  /**
    `FileNotFoundError` exactly when no file has the name, and what is read
    is the content of a file of that name.
   */
  lemma {:induction false} ReadFindsFile(dir: Diretorio, nome: string)
    ensures Le(dir, nome).Ausente? <==> forall f :: f in dir ==> f.nome != nome
    ensures Le(dir, nome).Lido? ==> Arquivo(nome, Some(Le(dir, nome).objeto)) in dir
    decreases |dir|
  {
    if |dir| > 0 && dir[0].nome != nome {
      ReadFindsFile(dir[1..], nome);
      assert dir == [dir[0]] + dir[1..];
    }
  }

  /** The directory without the files named `nome`. */
  function Remove(dir: Diretorio, nome: string): Diretorio {
    if |dir| == 0 then []
    else if dir[0].nome == nome then Remove(dir[1..], nome)
    else [dir[0]] + Remove(dir[1..], nome)
  }

  /** Exactly the files of other names remain. */
  lemma {:induction false} RemoveKeepsOthers(dir: Diretorio, nome: string)
    ensures forall f :: f in Remove(dir, nome) <==> f in dir && f.nome != nome
  {
    if |dir| > 0 {
      RemoveKeepsOthers(dir[1..], nome);
      assert dir == [dir[0]] + dir[1..];
    }
  }

  lemma {:induction false} ReadAfterRemove(dir: Diretorio, nome: string, outro: string)
    requires outro != nome
    ensures Le(Remove(dir, nome), outro) == Le(dir, outro)
    decreases |dir|
  {
    if |dir| > 0 {
      ReadAfterRemove(dir[1..], nome, outro);
      if dir[0].nome != nome {
        var r := Remove(dir, nome);
        assert r == [dir[0]] + Remove(dir[1..], nome);
        assert r[1..] == Remove(dir[1..], nome);
      }
    }
  }

  lemma {:induction false} ReadAfterAppend(dir: Diretorio, f: Arquivo, nome: string)
    ensures Le(dir + [f], nome) ==
      if !Le(dir, nome).Ausente? then Le(dir, nome)
      else if f.nome != nome then Ausente
      else Unpickle(f)
    decreases |dir|
  {
    if |dir| == 0 {
      assert dir + [f] == [f];
    } else {
      assert (dir + [f])[1..] == dir[1..] + [f];
      ReadAfterAppend(dir[1..], f, nome);
    }
  }

  /**
    `pickle.dump(obj, open(novo.nome, 'wb'))`: the file is created or
    truncated and holds what `novo` holds. The listing position of a
    rewritten file is not kept (`os.listdir` promises no order).
   */
  function Grava(dir: Diretorio, novo: Arquivo): Diretorio {
    Remove(dir, novo.nome) + [novo]
  }

  /** After a write, a file is the one written or an untouched one of another name. */
  lemma WriteOrigin(dir: Diretorio, novo: Arquivo, f: Arquivo)
    requires f in Grava(dir, novo)
    ensures f == novo || (f in dir && f.nome != novo.nome)
  {
    RemoveKeepsOthers(dir, novo.nome);
  }

  /** A written file reads back as what was written; other names read as before. */
  lemma ReadAfterWrite(dir: Diretorio, novo: Arquivo, outro: string)
    ensures Le(Grava(dir, novo), outro) == if outro == novo.nome then Unpickle(novo) else Le(dir, outro)
  {
    var resto := Remove(dir, novo.nome);
    ReadAfterAppend(resto, novo, outro);
    RemoveKeepsOthers(dir, novo.nome);
    ReadFindsFile(resto, novo.nome);
    if outro != novo.nome {
      ReadAfterRemove(dir, novo.nome, outro);
    }
  }

  /**
    The `for filename in os.listdir(modelo_dir)` loop: every model file is
    unpickled under its derived name, a later file overriding an earlier
    one of the same derived name; `None` when one of them cannot be
    unpickled.
   */
  function CarregaModelos(dir: Diretorio): (r: Option<map<string, Objeto>>)
    ensures r.None? <==> exists f :: f in dir && EhArquivoDeModelo(f.nome) && f.conteudo.None?
    ensures r.Some? ==> forall n :: n in r.value <==>
      exists f :: f in dir && EhArquivoDeModelo(f.nome) && NomeDoModelo(f.nome) == n
    ensures r.Some? ==> forall n :: n in r.value ==>
      exists f :: f in dir && EhArquivoDeModelo(f.nome) && NomeDoModelo(f.nome) == n
                && f.conteudo == Some(r.value[n])
    decreases |dir|
  {
    if |dir| == 0 then Some(map[])
    else
      var init := dir[..|dir| - 1];
      var f := dir[|dir| - 1];
      assert dir == init + [f];
      match CarregaModelos(init)
      case None => None
      case Some(m) =>
        if !EhArquivoDeModelo(f.nome) then Some(m)
        else
          match f.conteudo
          case None => None
          case Some(o) => Some(m[NomeDoModelo(f.nome) := o])
  }

  /**
    `carregar_modelos_do_disco`, run under the lock as one step. A missing
    or unreadable encoder.pkl leaves the cache as it was; a missing or
    unreadable tfidf.pkl leaves it with only `encoder_prod` replaced; once
    both load, `tfidf_prod` is replaced too, and then a model file that
    cannot be unpickled leaves `modelos` alone, while otherwise `modelos` is
    replaced wholesale by the freshly built mapping.
   */
  function CarregarModelosDoDisco(cache: Cache, dir: Diretorio): (r: Cache)
    ensures r.metricas == cache.metricas
    ensures !Le(dir, ArquivoEncoder).Lido? ==> r == cache
    ensures Le(dir, ArquivoEncoder).Lido? ==> r.encoderProd == Some(Le(dir, ArquivoEncoder).objeto)
    ensures Le(dir, ArquivoEncoder).Lido? && !Le(dir, ArquivoTfidf).Lido? ==>
      r.tfidfProd == cache.tfidfProd && r.modelos == cache.modelos
    ensures r.modelos != cache.modelos ==>
      Le(dir, ArquivoEncoder).Lido? && Le(dir, ArquivoTfidf).Lido? && CarregaModelos(dir).Some?
    ensures Le(dir, ArquivoEncoder).Lido? && Le(dir, ArquivoTfidf).Lido? ==>
      r.tfidfProd == Some(Le(dir, ArquivoTfidf).objeto)
    ensures Le(dir, ArquivoEncoder).Lido? && Le(dir, ArquivoTfidf).Lido? && CarregaModelos(dir).Some? ==>
      r.modelos == CarregaModelos(dir).value
  {
    match Le(dir, ArquivoEncoder)
    case Ausente => cache
    case Ilegivel => cache
    case Lido(encoder) =>
      var c1 := cache.(encoderProd := Some(encoder));
      match Le(dir, ArquivoTfidf)
      case Ausente => c1
      case Ilegivel => c1
      case Lido(tfidf) =>
        var c2 := c1.(tfidfProd := Some(tfidf));
        match CarregaModelos(dir)
        case None => c2
        case Some(modelos) => c2.(modelos := modelos)
  }
}
