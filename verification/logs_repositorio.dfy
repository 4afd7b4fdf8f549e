/**
  The request log table and its retention (repositorios/logs_repositorio.py).
 */
module LogsRepositorio {
  import opened Seqs
  import opened Modelos

  /** The stored entries and the next auto-increment id. */
  datatype TabelaLogs = TabelaLogs(linhas: seq<LogRequest>, proximoId: int)

  /** `timedelta(days=1)` in the seconds the timestamps are counted in. */
  const SegundosPorDia: int := 86400

  /**
    `cria_log_request`: one entry is appended with the given method, path,
    status code and processing time, stamped with the server's `agora`.
   */
  function CriaLogRequest(t: TabelaLogs, metodo: string, path: string, statusCode: int, processTimeMs: real, agora: int)
    : (r: TabelaLogs)
    ensures |r.linhas| == |t.linhas| + 1
    ensures r.linhas[..|t.linhas|] == t.linhas
    ensures
      var e := r.linhas[|t.linhas|];
      e.metodo == metodo && e.path == path && e.statusCode == statusCode &&
      e.processTimeMs == processTimeMs && e.timestamp == agora
    ensures (forall l :: l in t.linhas ==> l.id < t.proximoId) ==>
      forall l :: l in r.linhas ==> l.id < r.proximoId
  {
    var e := LogRequest(t.proximoId, agora, metodo, path, statusCode, processTimeMs);
    assert (t.linhas + [e])[..|t.linhas|] == t.linhas;
    TabelaLogs(t.linhas + [e], t.proximoId + 1)
  }

  /** `datetime.now() - timedelta(days=dias)`. */
  function DataLimite(agora: int, dias: int): int {
    agora - dias * SegundosPorDia
  }

  function Antigo(corte: int): LogRequest -> bool {
    (l: LogRequest) => l.timestamp < corte
  }

  function Recente(corte: int): LogRequest -> bool {
    (l: LogRequest) => l.timestamp >= corte
  }

  /**
    `deleta_logs_antigos`: the entries stamped strictly before the cutoff
    are removed, the others kept unchanged and in order, and the count
    returned is the number removed.
   */
  function DeletaLogsAntigos(t: TabelaLogs, agora: int, dias: int): (r: (TabelaLogs, nat))
    ensures forall l :: l in r.0.linhas <==> l in t.linhas && l.timestamp >= DataLimite(agora, dias)
    ensures r.1 == |t.linhas| - |r.0.linhas|
    ensures r.1 == |Filter(t.linhas, Antigo(DataLimite(agora, dias)))|
    ensures r.0.proximoId == t.proximoId
  {
    var corte := DataLimite(agora, dias);
    FilterComplement(t.linhas, Antigo(corte), Recente(corte));
    (t.(linhas := Filter(t.linhas, Recente(corte))), |Filter(t.linhas, Antigo(corte))|)
  }

  /** An entry stamped exactly at the cutoff survives. */
  lemma CutoffEntryKept(t: TabelaLogs, agora: int, dias: int, l: LogRequest)
    requires l in t.linhas && l.timestamp == DataLimite(agora, dias)
    ensures l in DeletaLogsAntigos(t, agora, dias).0.linhas
  {
  }

  /** Keeping more days of logs never deletes more entries. */
  lemma LongerRetentionDeletesLess(t: TabelaLogs, agora: int, dias1: int, dias2: int)
    requires dias1 <= dias2
    ensures DeletaLogsAntigos(t, agora, dias2).1 <= DeletaLogsAntigos(t, agora, dias1).1
  {
    var c1, c2 := DataLimite(agora, dias1), DataLimite(agora, dias2);
    assert c2 <= c1;
    FilterMonotone(t.linhas, Antigo(c2), Antigo(c1));
  }
}
