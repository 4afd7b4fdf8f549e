/**
  The records of the service: the rows of its tables and the book data
  the scraper extracts and the prediction endpoint receives.
 */
module Modelos {
  import opened Wrappers

  /**
    The six fields of a book as a dictionary or request body: what the card
    parser returns and what the prediction endpoint accepts.
   */
  datatype DadosLivro = DadosLivro(
    titulo: string,
    preco: real,
    rating: int,
    disponibilidade: bool,
    imagem: string,
    categoria: string)

  /** A row of the `livros` table; `id` is the auto-increment primary key. */
  datatype Livro = Livro(
    id: int,
    titulo: string,
    preco: real,
    rating: int,
    disponibilidade: bool,
    categoria: string,
    imagem: string)

  /** A JSON scalar as stored in a task's `resultado` column. */
  datatype Valor = Texto(texto: string) | Inteiro(numero: int)

  /** A JSON object. */
  type Json = map<string, Valor>

  /** A row of the `tarefas` table; `resultado` is nullable. */
  datatype Tarefa = Tarefa(id: string, estado: string, resultado: Option<Json>)

  /** A row of the `registro_modelos` table. */
  datatype RegistroModelo = RegistroModelo(
    id: string,
    nomeModelo: string,
    versao: string,
    caminhoModelo: string,
    caminhoEncoder: string,
    caminhoTfidf: string,
    metricas: map<string, real>,
    emProducao: bool)

  /** A row of the `log_requests` table; `timestamp` is in seconds. */
  datatype LogRequest = LogRequest(
    id: int,
    timestamp: int,
    metodo: string,
    path: string,
    statusCode: int,
    processTimeMs: real)

  /** An HTTP error raised by a route: its status code and detail text. */
  datatype ErroHttp = ErroHttp(status: int, detalhe: string)

  /** An object restored by unpickling: a fitted model, encoder or vectoriser. */
  datatype Objeto = Objeto(ref: nat)
}
