/**
  The `tarefas` table and its repository (repositorios/tarefas_repositorio.py):
  creation, lookup by id and the partial update of `estado` and `resultado`.
 */
module TarefasRepositorio {
  import opened Wrappers
  import opened Modelos

  /** The `estado` a task is created with when the caller gives none. */
  const EstadoPadrao: string := "pendente"

  /** Primary keys are distinct. */
  ghost predicate IdsUnicos(ts: seq<Tarefa>) {
    forall i, j :: 0 <= i < j < |ts| ==> ts[i].id != ts[j].id
  }

  /** The index of the first task with the id, as `.filter(id == ...).first()` finds it. */
  function Posicao(ts: seq<Tarefa>, id: string): (r: Option<nat>)
    ensures r.None? <==> forall t :: t in ts ==> t.id != id
    ensures r.Some? ==>
      && r.value < |ts| && ts[r.value].id == id
      && forall j :: 0 <= j < r.value ==> ts[j].id != id
    decreases |ts|
  {
    if |ts| == 0 then None
    else if ts[0].id == id then Some(0)
    else
      assert ts == [ts[0]] + ts[1..];
      match Posicao(ts[1..], id)
      case None => None
      case Some(i) => Some(i + 1)
  }

  /**
    `cria_tarefa`: the new task with the given `estado` and `resultado` is
    appended; an id already taken violates the primary key and raises.
   */
  function CriaTarefa(ts: seq<Tarefa>, novoId: string, estado: string, resultado: Option<Json>)
    : (r: Result<seq<Tarefa>, string>)
    ensures r.Failure? <==> exists t :: t in ts && t.id == novoId
    ensures r.Success? ==> r.value == ts + [Tarefa(novoId, estado, resultado)]
    ensures r.Success? && IdsUnicos(ts) ==> IdsUnicos(r.value)
  {
    if Posicao(ts, novoId).Some? then Failure("IntegrityError: id já existe")
    else Success(ts + [Tarefa(novoId, estado, resultado)])
  }

  /** `busca_tarefa_por_id`: the task with the id, or `None`. */
  function BuscaTarefaPorId(ts: seq<Tarefa>, id: string): (r: Option<Tarefa>)
    ensures r.None? <==> forall t :: t in ts ==> t.id != id
    ensures r.Some? ==> r.value in ts && r.value.id == id
  {
    match Posicao(ts, id)
    case None => None
    case Some(i) => Some(ts[i])
  }

  /** A created task is found by its id, exactly as it was created. */
  lemma CreateThenFetch(ts: seq<Tarefa>, novoId: string, estado: string, resultado: Option<Json>)
    requires CriaTarefa(ts, novoId, estado, resultado).Success?
    ensures BuscaTarefaPorId(CriaTarefa(ts, novoId, estado, resultado).value, novoId)
      == Some(Tarefa(novoId, estado, resultado))
  {
    var us := CriaTarefa(ts, novoId, estado, resultado).value;
    assert us[|ts|].id == novoId;
  }

  /**
    `cria_tarefa` called without `estado` and `resultado`: the task is
    found afterwards in state "pendente" with no result.
   */
  function CriaTarefaPadrao(ts: seq<Tarefa>, novoId: string): (r: Result<seq<Tarefa>, string>)
    ensures r.Failure? <==> exists t :: t in ts && t.id == novoId
    ensures r.Success? ==> BuscaTarefaPorId(r.value, novoId) == Some(Tarefa(novoId, EstadoPadrao, None))
    ensures r.Success? ==> forall t :: t in ts ==> t in r.value
  {
    var r := CriaTarefa(ts, novoId, EstadoPadrao, None);
    if r.Failure? then r
    else
      CreateThenFetch(ts, novoId, EstadoPadrao, None);
      r
  }

  /** Python truthiness of the `estado` argument: `None` and `""` are false. */
  predicate Verdadeiro(estado: Option<string>) {
    estado.Some? && estado.value != ""
  }

  /** The fields of one task after the update. */
  function Atualizada(t: Tarefa, estado: Option<string>, resultado: Option<Json>): Tarefa {
    t.(estado := if Verdadeiro(estado) then estado.value else t.estado,
       resultado := if resultado.Some? then resultado else t.resultado)
  }

  /**
    `atualiza_tarefa`: an unknown id raises (the lookup yields `None`);
    otherwise only that task changes, its `estado` only for a truthy value
    and its `resultado` for any value but `None` (an empty dictionary
    included). The id and every other task are untouched.
   */
  function AtualizaTarefa(ts: seq<Tarefa>, id: string, estado: Option<string>, resultado: Option<Json>)
    : (r: Result<seq<Tarefa>, string>)
    ensures r.Failure? <==> forall t :: t in ts ==> t.id != id
    ensures r.Success? ==>
      var i := Posicao(ts, id).value;
      && |r.value| == |ts|
      && r.value[i].id == id
      && r.value[i].estado == (if Verdadeiro(estado) then estado.value else ts[i].estado)
      && r.value[i].resultado == (if resultado.Some? then resultado else ts[i].resultado)
      && forall j :: 0 <= j < |ts| && j != i ==> r.value[j] == ts[j]
  {
    match Posicao(ts, id)
    case None => Failure("'NoneType' object has no attribute 'estado'")
    case Some(i) => Success(ts[i := Atualizada(ts[i], estado, resultado)])
  }

  /** Applying the same update twice leaves the table as applying it once. */
  lemma AtualizaIdempotente(ts: seq<Tarefa>, id: string, estado: Option<string>, resultado: Option<Json>)
    requires AtualizaTarefa(ts, id, estado, resultado).Success?
    ensures AtualizaTarefa(AtualizaTarefa(ts, id, estado, resultado).value, id, estado, resultado)
      == AtualizaTarefa(ts, id, estado, resultado)
  {
    var i := Posicao(ts, id).value;
    var u := Atualizada(ts[i], estado, resultado);
    var ts1 := ts[i := u];
    PosicaoIgnoresOtherFields(ts, ts1, id);
    assert Atualizada(u, estado, resultado) == u;
    assert ts1[i := u] == ts1;
  }

  /** The lookup depends only on the ids. */
  lemma {:induction false} PosicaoIgnoresOtherFields(ts: seq<Tarefa>, us: seq<Tarefa>, id: string)
    requires |ts| == |us|
    requires forall j :: 0 <= j < |ts| ==> ts[j].id == us[j].id
    ensures Posicao(ts, id) == Posicao(us, id)
    decreases |ts|
  {
    if |ts| > 0 && ts[0].id != id {
      PosicaoIgnoresOtherFields(ts[1..], us[1..], id);
    }
  }

  /** An update keeps the ids of the table and hence their uniqueness. */
  lemma AtualizaKeepsIds(ts: seq<Tarefa>, id: string, estado: Option<string>, resultado: Option<Json>)
    requires IdsUnicos(ts)
    requires AtualizaTarefa(ts, id, estado, resultado).Success?
    ensures IdsUnicos(AtualizaTarefa(ts, id, estado, resultado).value)
  {
  }
}
