/**
  The `livros` table and its repository (repositorios/livros_repositorio.py):
  bulk insert of scraped dictionaries and the full read.
 */
module LivrosRepositorio {
  import opened Modelos

  /**
    The committed rows in insertion order and the next auto-increment id
    the database will hand out.
   */
  datatype TabelaLivros = TabelaLivros(linhas: seq<Livro>, proximoId: int)

  /** Primary keys are distinct and all below the next id to be assigned. */
  ghost predicate Valida(t: TabelaLivros) {
    && (forall i :: 0 <= i < |t.linhas| ==> t.linhas[i].id < t.proximoId)
    && (forall i, j :: 0 <= i < j < |t.linhas| ==> t.linhas[i].id != t.linhas[j].id)
  }

  /** The row `Livro(...)` built from one dictionary, with the id it is given. */
  function NovoLivro(d: DadosLivro, id: int): Livro {
    Livro(id, d.titulo, d.preco, d.rating, d.disponibilidade, d.categoria, d.imagem)
  }

  /** The rows an insert of `dados` appends, numbered from `primeiroId`. */
  function NovasLinhas(dados: seq<DadosLivro>, primeiroId: int): (r: seq<Livro>)
    ensures |r| == |dados|
    ensures forall i :: 0 <= i < |dados| ==> r[i] == NovoLivro(dados[i], primeiroId + i)
  {
    seq(|dados|, i requires 0 <= i < |dados| => NovoLivro(dados[i], primeiroId + i))
  }

  /**
    `salva_dados_livros`: an empty list adds nothing and commits nothing;
    otherwise one row per dictionary is appended with the next free ids,
    fields copied verbatim, and the rows already stored are left as they were.
   */
  function SalvaDadosLivros(t: TabelaLivros, dados: seq<DadosLivro>): (r: TabelaLivros)
    ensures |dados| == 0 ==> r == t
    ensures |r.linhas| == |t.linhas| + |dados|
    ensures r.linhas[..|t.linhas|] == t.linhas
    ensures forall i :: 0 <= i < |dados| ==>
      var l := r.linhas[|t.linhas| + i];
      && l.id == t.proximoId + i
      && l.titulo == dados[i].titulo && l.preco == dados[i].preco
      && l.rating == dados[i].rating && l.disponibilidade == dados[i].disponibilidade
      && l.categoria == dados[i].categoria && l.imagem == dados[i].imagem
    ensures Valida(t) ==> Valida(r)
  {
    if |dados| == 0 then t
    else
      var r := TabelaLivros(t.linhas + NovasLinhas(dados, t.proximoId), t.proximoId + |dados|);
      assert r.linhas[..|t.linhas|] == t.linhas;
      r
  }

  /** `busca_todos_livros`: every stored row. */
  function BuscaTodosLivros(t: TabelaLivros): seq<Livro> {
    t.linhas
  }
}
