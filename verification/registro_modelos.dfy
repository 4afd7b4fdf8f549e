/**
  The model registry (repositorios/registro_modelos_repositorio.py): the
  `registro_modelos` rows and the promotion that keeps one production
  version per model name.
 */
module RegistroModelos {
  import opened Wrappers
  import opened Seqs
  import opened Modelos

  /** At most one record of each model name is flagged as in production. */
  ghost predicate UmaVersaoEmProducao(rs: seq<RegistroModelo>) {
    forall i, j :: 0 <= i < j < |rs| && rs[i].emProducao && rs[j].emProducao ==>
      rs[i].nomeModelo != rs[j].nomeModelo
  }

  /**
    `registrar_modelo`: the record takes its paths from the `modelo`,
    `encoder` and `tfidf` keys of `caminhos` and the metrics verbatim, and
    is not in production. A missing key raises `KeyError` before anything
    is stored; an id already taken violates the primary key.
   */
  function RegistrarModelo(rs: seq<RegistroModelo>, id: string, nomeModelo: string, versao: string,
                           caminhos: map<string, string>, metricas: map<string, real>)
    : (r: Result<seq<RegistroModelo>, string>)
    ensures r.Failure? <==>
      "modelo" !in caminhos || "encoder" !in caminhos || "tfidf" !in caminhos ||
      exists x :: x in rs && x.id == id
    ensures r.Success? ==>
      && |r.value| == |rs| + 1
      && r.value[..|rs|] == rs
      && r.value[|rs|].id == id
      && r.value[|rs|].nomeModelo == nomeModelo
      && r.value[|rs|].versao == versao
      && r.value[|rs|].caminhoModelo == caminhos["modelo"]
      && r.value[|rs|].caminhoEncoder == caminhos["encoder"]
      && r.value[|rs|].caminhoTfidf == caminhos["tfidf"]
      && r.value[|rs|].metricas == metricas
      && !r.value[|rs|].emProducao
    ensures r.Success? && UmaVersaoEmProducao(rs) ==> UmaVersaoEmProducao(r.value)
  {
    if "modelo" !in caminhos || "encoder" !in caminhos || "tfidf" !in caminhos then
      Failure("KeyError")
    else if exists x :: x in rs && x.id == id then
      Failure("IntegrityError: id já existe")
    else
      var registro := RegistroModelo(
        id, nomeModelo, versao, caminhos["modelo"], caminhos["encoder"], caminhos["tfidf"], metricas, false);
      assert (rs + [registro])[..|rs|] == rs;
      Success(rs + [registro])
  }

  /** `listar_todos_modelos`: every record. */
  function ListarTodosModelos(rs: seq<RegistroModelo>): seq<RegistroModelo> {
    rs
  }

  function EmProducao(x: RegistroModelo): bool { x.emProducao }

  /** `listar_modelos_em_producao`: exactly the flagged records. */
  function ListarModelosEmProducao(rs: seq<RegistroModelo>): (r: seq<RegistroModelo>)
    ensures forall x :: x in r <==> x in rs && x.emProducao
    ensures |r| <= |rs|
  {
    Filter(rs, EmProducao)
  }

  /**
    A registered model is listed among all models straight away, after the
    records already there, but the production listing is unchanged until it
    is promoted.
   */
  lemma RegisterThenList(rs: seq<RegistroModelo>, id: string, nomeModelo: string, versao: string,
                         caminhos: map<string, string>, metricas: map<string, real>)
    requires RegistrarModelo(rs, id, nomeModelo, versao, caminhos, metricas).Success?
    ensures var novos := RegistrarModelo(rs, id, nomeModelo, versao, caminhos, metricas).value;
      && ListarTodosModelos(novos)[..|rs|] == ListarTodosModelos(rs)
      && |ListarTodosModelos(novos)| == |rs| + 1 && ListarTodosModelos(novos)[|rs|].id == id
      && ListarModelosEmProducao(novos) == ListarModelosEmProducao(rs)
  {
    var novos := RegistrarModelo(rs, id, nomeModelo, versao, caminhos, metricas).value;
    assert novos[..|novos| - 1] == rs;
  }

  /** Under the invariant, the production listing names each model once. */
  lemma {:induction false} ProductionListingHasDistinctNames(rs: seq<RegistroModelo>)
    requires UmaVersaoEmProducao(rs)
    ensures forall i, j :: 0 <= i < j < |ListarModelosEmProducao(rs)| ==>
      ListarModelosEmProducao(rs)[i].nomeModelo != ListarModelosEmProducao(rs)[j].nomeModelo
    decreases |rs|
  {
    if |rs| > 0 {
      var init := rs[..|rs| - 1];
      var x := rs[|rs| - 1];
      assert UmaVersaoEmProducao(init) by {
        assert forall i :: 0 <= i < |init| ==> init[i] == rs[i];
      }
      ProductionListingHasDistinctNames(init);
      var f := ListarModelosEmProducao(init);
      var g := ListarModelosEmProducao(rs);
      if x.emProducao {
        assert g == f + [x];
        forall y | y in f
          ensures y.nomeModelo != x.nomeModelo
        {
          assert y in init && y.emProducao;
          var k :| 0 <= k < |init| && init[k] == y;
          assert rs[k] == y;
        }
        forall a, b | 0 <= a < b < |g|
          ensures g[a].nomeModelo != g[b].nomeModelo
        {
          if b == |g| - 1 {
            assert g[a] in f;
          } else {
            assert g[a] == f[a] && g[b] == f[b];
          }
        }
      } else {
        assert g == f;
      }
    }
  }

  /** Every record of the model set out of production, as the bulk `UPDATE` does. */
  function Rebaixa(rs: seq<RegistroModelo>, nomeModelo: string): (r: seq<RegistroModelo>)
    ensures |r| == |rs|
    ensures forall j :: 0 <= j < |rs| ==>
      r[j] == if rs[j].nomeModelo == nomeModelo then rs[j].(emProducao := false) else rs[j]
  {
    seq(|rs|, j requires 0 <= j < |rs| =>
      if rs[j].nomeModelo == nomeModelo then rs[j].(emProducao := false) else rs[j])
  }

  /** The record is version `versao` of model `nomeModelo`. */
  predicate Casa(x: RegistroModelo, nomeModelo: string, versao: string) {
    x.nomeModelo == nomeModelo && x.versao == versao
  }

  /** The index of the first record with the name and version (`.first()`). */
  function PosicaoVersao(rs: seq<RegistroModelo>, nomeModelo: string, versao: string): (r: Option<nat>)
    ensures r.None? <==> forall j :: 0 <= j < |rs| ==> !Casa(rs[j], nomeModelo, versao)
    ensures r.Some? ==>
      && r.value < |rs| && Casa(rs[r.value], nomeModelo, versao)
      && forall j :: 0 <= j < r.value ==> !Casa(rs[j], nomeModelo, versao)
    decreases |rs|
  {
    if |rs| == 0 then None
    else if Casa(rs[0], nomeModelo, versao) then Some(0)
    else
      var cauda := rs[1..];
      assert forall j :: 0 < j < |rs| ==> rs[j] == cauda[j - 1];
      match PosicaoVersao(cauda, nomeModelo, versao)
      case None => None
      case Some(i) => Some(i + 1)
  }

  /**
    The outcome of a promotion: the committed records and the promoted one,
    or, when no record matches, the demoted view that the session never
    commits.
   */
  datatype Promocao =
    | Promovido(registros: seq<RegistroModelo>, modelo: RegistroModelo)
    | NaoEncontrado(pendente: seq<RegistroModelo>)

  /** `promover_modelo_para_producao`. */
  function PromoverModeloParaProducao(rs: seq<RegistroModelo>, nomeModelo: string, versao: string): Promocao {
    var rebaixados := Rebaixa(rs, nomeModelo);
    match PosicaoVersao(rebaixados, nomeModelo, versao)
    case None => NaoEncontrado(rebaixados)
    case Some(i) =>
      var promovido := rebaixados[i].(emProducao := true);
      Promovido(rebaixados[i := promovido], promovido)
  }

  /** The records as stored once the request's session is closed. */
  function Confirmado(rs: seq<RegistroModelo>, p: Promocao): seq<RegistroModelo> {
    match p
    case Promovido(registros, _) => registros
    case NaoEncontrado(_) => rs
  }

  /**
    A successful promotion of (n, v) leaves exactly one record named n in
    production, the first one matching (n, v), and changes no record of
    another name; with no match nothing is committed, though the session's
    pending view has every record named n demoted.
   */
  lemma PromotionOutcome(rs: seq<RegistroModelo>, nomeModelo: string, versao: string)
    ensures
      var p := PromoverModeloParaProducao(rs, nomeModelo, versao);
      && (p.NaoEncontrado? <==> forall j :: 0 <= j < |rs| ==> !Casa(rs[j], nomeModelo, versao))
      && (p.NaoEncontrado? ==>
            && Confirmado(rs, p) == rs
            && forall x :: x in p.pendente && x.nomeModelo == nomeModelo ==> !x.emProducao)
      && (p.Promovido? ==>
            var i := PosicaoVersao(rs, nomeModelo, versao).value;
            && |p.registros| == |rs|
            && p.modelo == p.registros[i]
            && p.modelo == rs[i].(emProducao := true)
            && (forall j :: 0 <= j < |rs| && p.registros[j].nomeModelo == nomeModelo && p.registros[j].emProducao ==> j == i)
            && (forall j :: 0 <= j < |rs| && rs[j].nomeModelo != nomeModelo ==> p.registros[j] == rs[j])
            && (forall j :: 0 <= j < |rs| && j != i ==>
                  p.registros[j] == rs[j].(emProducao := rs[j].emProducao && rs[j].nomeModelo != nomeModelo)))
  {
    var rebaixados := Rebaixa(rs, nomeModelo);
    MatchIgnoresFlag(rs, rebaixados, nomeModelo, versao);
    var p := PromoverModeloParaProducao(rs, nomeModelo, versao);
    if p.NaoEncontrado? {
      forall x | x in p.pendente && x.nomeModelo == nomeModelo
        ensures !x.emProducao
      {
        var k :| 0 <= k < |rebaixados| && rebaixados[k] == x;
      }
    }
  }

  /** Matching on name and version ignores the production flag. */
  lemma {:induction false} MatchIgnoresFlag(rs: seq<RegistroModelo>, us: seq<RegistroModelo>, nomeModelo: string, versao: string)
    requires |rs| == |us|
    requires forall j :: 0 <= j < |rs| ==> us[j] == rs[j].(emProducao := us[j].emProducao)
    ensures PosicaoVersao(rs, nomeModelo, versao) == PosicaoVersao(us, nomeModelo, versao)
    decreases |rs|
  {
    if |rs| > 0 && !Casa(rs[0], nomeModelo, versao) {
      MatchIgnoresFlag(rs[1..], us[1..], nomeModelo, versao);
    }
  }

  /** Registering and promoting both keep one production version per name. */
  lemma PromotionPreservesInvariant(rs: seq<RegistroModelo>, nomeModelo: string, versao: string)
    requires UmaVersaoEmProducao(rs)
    ensures UmaVersaoEmProducao(Confirmado(rs, PromoverModeloParaProducao(rs, nomeModelo, versao)))
  {
    PromotionOutcome(rs, nomeModelo, versao);
    var p := PromoverModeloParaProducao(rs, nomeModelo, versao);
    if p.Promovido? {
      var i := PosicaoVersao(rs, nomeModelo, versao).value;
      var qs := p.registros;
      forall a, b | 0 <= a < b < |qs| && qs[a].emProducao && qs[b].emProducao
        ensures qs[a].nomeModelo != qs[b].nomeModelo
      {
        if qs[a].nomeModelo != nomeModelo && qs[b].nomeModelo != nomeModelo {
          assert qs[a] == rs[a] && qs[b] == rs[b];
        }
      }
    }
  }

  /**
    After a successful promotion of (n, v) the promoted record is still the
    first match and the only record named n in production.
   */
  lemma PromotedIsOnlyProduction(rs: seq<RegistroModelo>, nomeModelo: string, versao: string)
    requires PromoverModeloParaProducao(rs, nomeModelo, versao).Promovido?
    ensures
      var uma := PromoverModeloParaProducao(rs, nomeModelo, versao).registros;
      var i := PosicaoVersao(rs, nomeModelo, versao).value;
      && |uma| == |rs|
      && PosicaoVersao(uma, nomeModelo, versao) == Some(i)
      && uma[i].nomeModelo == nomeModelo && uma[i].emProducao
      && forall j :: 0 <= j < |uma| && j != i && uma[j].nomeModelo == nomeModelo ==> !uma[j].emProducao
  {
    var uma := PromoverModeloParaProducao(rs, nomeModelo, versao).registros;
    PromotionOutcome(rs, nomeModelo, versao);
    MatchIgnoresFlag(rs, uma, nomeModelo, versao);
  }

  /** Promoting the same (n, v) twice stores what promoting it once stores. */
  lemma PromotionIdempotent(rs: seq<RegistroModelo>, nomeModelo: string, versao: string)
    ensures
      var uma := Confirmado(rs, PromoverModeloParaProducao(rs, nomeModelo, versao));
      Confirmado(uma, PromoverModeloParaProducao(uma, nomeModelo, versao)) == uma
  {
    var p := PromoverModeloParaProducao(rs, nomeModelo, versao);
    if p.Promovido? {
      var uma := p.registros;
      var i := PosicaoVersao(rs, nomeModelo, versao).value;
      PromotedIsOnlyProduction(rs, nomeModelo, versao);
      var rebaixados := Rebaixa(uma, nomeModelo);
      MatchIgnoresFlag(uma, rebaixados, nomeModelo, versao);
      var q := PromoverModeloParaProducao(uma, nomeModelo, versao);
      assert q.registros == rebaixados[i := rebaixados[i].(emProducao := true)];
      forall j | 0 <= j < |uma|
        ensures q.registros[j] == uma[j]
      {
        if j != i && uma[j].nomeModelo == nomeModelo {
          assert !uma[j].emProducao;
        }
      }
      assert q.registros == uma;
    }
  }
}
