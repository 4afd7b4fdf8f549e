# consultaLivros in Dafny

consultaLivros is a book-catalogue service. A Selenium scraper walks the
categories of the books.toscrape.com site and stores every book card it can
parse in a `livros` table. FastAPI routes query that table. A scikit-learn
pipeline trains three "good book" classifiers. A prediction endpoint serves
one of them. Small SQLAlchemy repositories keep scrape tasks, a model
registry and request logs.

This project models the rules underneath that glue as pure Dafny functions
over immutable records:

- **Tables** are sequences of rows. Auto-increment keys come from a
  `proximoId` counter. Uuid keys are parameters, and a duplicate key is a
  failure.
- **The browser** is the finite sequence of pages it would show. Each page
  holds its book cards and the target of its "next" link, or the message of
  the exception raised while loading it.
- **The model directory** is a sequence of files, each holding an unpickled
  object or nothing (unpickling raises).
- **The caches** are records of `Option`s. The training cache
  (`GerenciadorDeModelos.Cache`) and the prediction endpoint's cache
  (`ApiMl.CacheServico`) are separate records, as in the source.
- **Foreign calls** are function-typed parameters. These are
  scikit-learn's fit, transform and predict, and the database rejecting
  an insert.

Modules follow the source layout:

- Shared: `Wrappers`, `Text`, `Seqs`, `Modelos`.
- Scraping: `BookScraper`, `ChromeScraper`.
- Repositories and book routes: `LivrosRepositorio`, `TarefasRepositorio`,
  `RegistroModelos`, `LogsRepositorio`, `ApiLivros`.
- Machine learning: `GerenciadorDeModelos`, `TreinamentoModelo`, `ApiMl`.

Each operation's contract relates its result to its inputs: what is kept,
what is dropped, which error arises when. Lemmas connect operations to
their partners:

- a save to the read that follows;
- a write to the read-back;
- training to a later `carregar_modelos_do_disco`, and to the
  prediction service's start-up load, which never sees what training wrote;
- a promotion to the registry invariant and to a second promotion;
- a loop method to its reference walk.

## Model

| member | source | states |
|---|---|---|
| BookScraper.RatingNumero | src/consultaLivros/raspagem/book_scraper.py:14-26 | the rating is always in 0..5; it is 0 exactly when the word is not one of "One".."Five", and rating n > 0 comes from the n-th rating word |
| BookScraper.RatingOfStarClass | src/consultaLivros/raspagem/book_scraper.py:14-25 | the class "… W" whose last token is the i-th rating word gives i + 1, whatever precedes the last space |
| BookScraper.UnknownRatingWordIsZero | src/consultaLivros/raspagem/book_scraper.py:25-26 | any other last token gives 0 and no error |
| BookScraper.TrailingSpaceIsZero | src/consultaLivros/raspagem/book_scraper.py:25-26 | a class text ending in a space has an empty last token, hence rating 0 |
| Text.LastToken | src/consultaLivros/raspagem/book_scraper.py:25 | `split(" ")[-1]` is the longest space-free suffix: either the whole string or the text after its last space |
| Text.LastTokenAfterSpace | src/consultaLivros/raspagem/book_scraper.py:25 | only the text after the last space decides the token |
| BookScraper.ExtrairDadosLivro | src/consultaLivros/raspagem/book_scraper.py:3-48 | a record is produced exactly when all five element lookups succeed, otherwise `None` (never a partial record); the record carries the category passed in and a rating in 0..5 |
| BookScraper.ExtractedFieldsCopied | src/consultaLivros/raspagem/book_scraper.py:6-43 | a record copies the card's title, price and image; its rating is the class's rating; it is available exactly when the stock text contains "In stock" |
| Text.ContainsOccurs | src/consultaLivros/raspagem/book_scraper.py:31 | `Contains`: Python's `p in s` holds exactly when `p` occurs at some index of `s` |
| Text.ContainsIgnoreCaseOfContains | src/consultaLivros/rotas/api_livros.py:29-32 | `ContainsIgnoreCase`, the model of `ilike '%term%'`: an exact occurrence of the term also matches case-insensitively |
| Text.ContainsIgnoreCaseFolded | src/consultaLivros/rotas/api_livros.py:29-32 | `ContainsIgnoreCase` ignores the case of both the column and the term: lower-casing either first does not change the answer |
| ChromeScraper.SucessosSound | src/consultaLivros/raspagem/chrome_scraper.py:32-35 | the kept records are exactly the non-`None` results, at most one per result, and all of them when none failed |
| ChromeScraper.ColetadosSound | src/consultaLivros/raspagem/chrome_scraper.py:32-35 | a page contributes at most one book per card, each tagged with the category and rated 0..5 |
| ChromeScraper.ColetadosComplete | src/consultaLivros/raspagem/chrome_scraper.py:32-35 | no successfully extracted card is dropped; with no failed card, the page yields one book per card |
| ChromeScraper.ExtraiPagina | src/consultaLivros/raspagem/chrome_scraper.py:32-35 | the loop over a page's cards computes the page's non-`None` extractions in card order |
| ChromeScraper.StopsAtFirstPageWithoutNext | src/consultaLivros/raspagem/chrome_scraper.py:24-47 | the reference walk `RaspaCategoria`: when pages 0..k-1 have a "next" link and page k has none, the category's result is the page-by-page concatenation of the extractions of pages 0..k |
| ChromeScraper.FailsAtErrorPage | src/consultaLivros/raspagem/chrome_scraper.py:24-47 | `RaspaCategoria`: when pages 0..k-1 have a "next" link and loading page k raises, the category walk fails with that exception's message |
| ChromeScraper.PagesAfterStopIgnored | src/consultaLivros/raspagem/chrome_scraper.py:38-47 | pages after the first page without a "next" link do not affect the result |
| ChromeScraper.RaspaLivrosCategoria | src/consultaLivros/raspagem/chrome_scraper.py:17-49 | the `while True` page loop with its inner card loop computes the reference walk, including the abort on a page that raises |
| ChromeScraper.RaspaTodasOutcome | src/consultaLivros/raspagem/chrome_scraper.py:98-134 | `RaspaTodas`: the run over all categories succeeds exactly when every category walk does; then every book belongs to one of the menu's categories; otherwise the error is the one some category walk raised |
| ChromeScraper.CategoriaDosColetados | src/consultaLivros/raspagem/chrome_scraper.py:17-49 | every book a category walk collects carries that category's name |
| ChromeScraper.ColetaTodasCategorias | src/consultaLivros/raspagem/chrome_scraper.py:98-101 | the category loop concatenates the per-category lists in menu order, and the first exception aborts it |
| ChromeScraper.UnknownTaskAbortsEarly | src/consultaLivros/raspagem/chrome_scraper.py:71-76 | `RodarScraperCompleto`: an unknown task id returns the "Tarefa não encontrada" error before any page is read, with both tables unchanged and no task state written |
| ChromeScraper.TaskLifecycle | src/consultaLivros/raspagem/chrome_scraper.py:71-130 | `RodarScraperCompleto`: a known task is set to EXECUTANDO and then ends CONCLUIDA with `{"total_encontrado": n}` or ERRO with `{"erro": message}`; no other task changes |
| ChromeScraper.MarcaEfeito | src/consultaLivros/raspagem/chrome_scraper.py:78 | marking a known task sets exactly its `estado` and `resultado` and keeps its position and every other task |
| ChromeScraper.MarcaDuasVezes | src/consultaLivros/raspagem/chrome_scraper.py:78-121 | of two successive marks of one task, the second one is what remains; every other task is unchanged |
| ChromeScraper.NoTaskWithoutId | src/consultaLivros/raspagem/chrome_scraper.py:71-130 | a run without a task id writes no task |
| ChromeScraper.RunSavesCollectedBooks | src/consultaLivros/raspagem/chrome_scraper.py:98-134 | `RodarScraperCompleto`: the reported total is the length of the concatenated list; books are saved only when that list is non-empty and the insert succeeds; a failing insert is swallowed and the run still reports the total; a scraping exception saves nothing and reports its message |
| LivrosRepositorio.SalvaDadosLivros | src/consultaLivros/repositorios/livros_repositorio.py:4-25 | an empty list changes nothing; otherwise the table grows by exactly one row per dictionary, each copying the six fields verbatim and numbered from the next free id, old rows untouched and keys kept distinct |
| LivrosRepositorio.NovasLinhas | src/consultaLivros/repositorios/livros_repositorio.py:12-22 | one `Livro` per dictionary, in order, numbered consecutively |
| ApiLivros.SavedBookFoundById | src/consultaLivros/repositorios/livros_repositorio.py:4-31 | on a table with distinct keys, after a save, `get_livro` on the i-th newly assigned id over `busca_todos_livros` (`BuscaTodosLivros`) returns the row with that id and the i-th dictionary's six fields |
| ApiLivros.OldBookStillFoundById | src/consultaLivros/repositorios/livros_repositorio.py:4-31 | on a table with distinct keys, every row stored before a save is still what `get_livro` returns for its id afterwards |
| ApiLivros.UniqueIdFound | src/consultaLivros/rotas/api_livros.py:56-63 | when ids are distinct, `get_livro` returns the one row carrying the id |
| ApiLivros.SearchLivros | src/consultaLivros/rotas/api_livros.py:28-35 | the result holds exactly the table rows that contain each non-empty term case-insensitively; with both terms empty it is the whole table |
| ApiLivros.OrdenaPorRating | src/consultaLivros/rotas/api_livros.py:42 | `ORDER BY rating DESC` yields a permutation of the table in non-increasing rating order |
| ApiLivros.InsereOrdenado | src/consultaLivros/rotas/api_livros.py:42 | inserting into a sorted list keeps it sorted |
| ApiLivros.InserePermuta | src/consultaLivros/rotas/api_livros.py:42 | insertion adds exactly the one book (as a multiset) |
| ApiLivros.GetTopRatedBooks | src/consultaLivros/rotas/api_livros.py:42 | at most ten books (all of them when fewer), taken from the table, in non-increasing rating order, and no book left out rates above one returned |
| ApiLivros.TopPrefix | src/consultaLivros/rotas/api_livros.py:42 | cutting a sorted list leaves nothing behind that outranks the kept head |
| ApiLivros.GetBooksByPriceRange | src/consultaLivros/rotas/api_livros.py:49-52 | 400 exactly when a bound is negative or min > max; otherwise exactly the books with min ≤ preco ≤ max, both ends included |
| ApiLivros.GetLivro | src/consultaLivros/rotas/api_livros.py:59-62 | 404 exactly when no row has the id; otherwise the first row with that id |
| ApiLivros.GetCategories | src/consultaLivros/rotas/api_livros.py:68-69 | no category twice, and exactly the categories that occur in the table |
| ApiLivros.PrecoMedio | src/consultaLivros/rotas/api_livros.py:86 | 0.0 on an empty table, otherwise the value that times the row count gives the price sum |
| ApiLivros.DistribuicaoRatings | src/consultaLivros/rotas/api_livros.py:89-90 | the keys are exactly the ratings present in the table |
| ApiLivros.OverviewStats | src/consultaLivros/rotas/api_livros.py:83-96 | the total is the table size; the mean is 0.0 on an empty table; each rating present maps to the number (≥ 1) of books with that rating; the counts add up to the total |
| ApiLivros.GetCategoryStats | src/consultaLivros/rotas/api_livros.py:105-110 | keyed by exactly the distinct categories of the table |
| ApiLivros.CategoryStats | src/consultaLivros/rotas/api_livros.py:101-120 | each category's entry is the overview statistics of that category's books alone; its total counts those books (at least one); the totals add up to the table size |
| ApiLivros.CategoryMeanPrice | src/consultaLivros/rotas/api_livros.py:101-120 | each category's mean price times its total is the sum of that category's prices |
| ApiLivros.CategoryRatings | src/consultaLivros/rotas/api_livros.py:101-120 | a category's rating keys are exactly the ratings occurring in that category, and each key counts the books of that category with that rating (at least one) |
| TarefasRepositorio.Posicao | src/consultaLivros/repositorios/tarefas_repositorio.py:14 | `.first()` on the id filter: absent exactly when no task has the id, otherwise the first task with it |
| TarefasRepositorio.CriaTarefa | src/consultaLivros/repositorios/tarefas_repositorio.py:4-10 | the task with the given `estado` and `resultado` is appended; a taken id fails as a key violation; distinct ids stay distinct |
| TarefasRepositorio.CreateThenFetch | src/consultaLivros/repositorios/tarefas_repositorio.py:4-16 | a created task is found by `busca_tarefa_por_id` under its id with exactly the `estado` and `resultado` it was created with |
| TarefasRepositorio.CriaTarefaPadrao | src/consultaLivros/repositorios/tarefas_repositorio.py:4-10 | `cria_tarefa` without arguments: a taken id fails; otherwise the task is found under its id in state "pendente" with no result, and every earlier task is kept |
| TarefasRepositorio.BuscaTarefaPorId | src/consultaLivros/repositorios/tarefas_repositorio.py:12-18 | the task with that id, or `None` exactly when no task has it |
| TarefasRepositorio.AtualizaTarefa | src/consultaLivros/repositorios/tarefas_repositorio.py:20-29 | an unknown id fails; otherwise only that task changes: `estado` only for a truthy value, `resultado` for any value but `None` (an empty dict included); the id and every other task are untouched |
| TarefasRepositorio.AtualizaIdempotente | src/consultaLivros/repositorios/tarefas_repositorio.py:20-29 | applying the same update twice gives the table one application gives |
| TarefasRepositorio.AtualizaKeepsIds | src/consultaLivros/repositorios/tarefas_repositorio.py:20-29 | an update keeps the ids distinct |
| RegistroModelos.RegistrarModelo | src/consultaLivros/repositorios/registro_modelos_repositorio.py:4-17 | a missing "modelo", "encoder" or "tfidf" key (KeyError) or a taken id fails; otherwise one record is appended with the three paths and the metrics verbatim, not in production, and the one-production-version invariant is kept |
| RegistroModelos.ListarModelosEmProducao | src/consultaLivros/repositorios/registro_modelos_repositorio.py:23-25 | exactly the records flagged as in production |
| RegistroModelos.RegisterThenList | src/consultaLivros/repositorios/registro_modelos_repositorio.py:4-25 | after a registration, `listar_todos_modelos` (`ListarTodosModelos`) returns the earlier records followed by the new one, while the production listing is unchanged until a promotion |
| RegistroModelos.ProductionListingHasDistinctNames | src/consultaLivros/repositorios/registro_modelos_repositorio.py:23-25 | under the invariant, the production listing names each model at most once |
| RegistroModelos.Rebaixa | src/consultaLivros/repositorios/registro_modelos_repositorio.py:30 | the bulk update clears the flag on every record of the name and changes nothing else |
| RegistroModelos.PosicaoVersao | src/consultaLivros/repositorios/registro_modelos_repositorio.py:33-36 | absent exactly when no record matches name and version, otherwise the first match |
| RegistroModelos.PromotionOutcome | src/consultaLivros/repositorios/registro_modelos_repositorio.py:27-43 | `PromoverModeloParaProducao`: no match exactly when no record has (n, v); then nothing is committed, although the pending view has every n record demoted; on success exactly one record named n is in production, namely the first (n, v) match; records of other names are unchanged; the others named n are demoted |
| RegistroModelos.MatchIgnoresFlag | src/consultaLivros/repositorios/registro_modelos_repositorio.py:30-36 | demoting does not move the first (n, v) match |
| RegistroModelos.PromotionPreservesInvariant | src/consultaLivros/repositorios/registro_modelos_repositorio.py:27-43 | promotion keeps at most one production version per model name |
| RegistroModelos.PromotedIsOnlyProduction | src/consultaLivros/repositorios/registro_modelos_repositorio.py:30-42 | after a promotion, the promoted record is still the first match and the only record of its name in production |
| RegistroModelos.PromotionIdempotent | src/consultaLivros/repositorios/registro_modelos_repositorio.py:27-43 | promoting the same (n, v) twice stores what promoting it once stores |
| GerenciadorDeModelos.ArtefactFilesAreNotModels | src/consultaLivros/ml/gerenciador_de_modelos.py:36 | encoder.pkl and tfidf.pkl fail the model-file name test |
| GerenciadorDeModelos.ModelFileNameRoundTrip | src/consultaLivros/ml/gerenciador_de_modelos.py:36-37 | `NomeDoModelo`: a name without "modelo_" and ".pkl", saved as "modelo_" + name + ".pkl", passes the filter and derives back to itself even though every occurrence is stripped |
| GerenciadorDeModelos.InnerPrefixAlsoStripped | src/consultaLivros/ml/gerenciador_de_modelos.py:36-37 | `NomeDoModelo` strips every "modelo_", so a model trained under the name "modelo_" + n is loaded back as n, not under its own name |
| Text.ReplaceAllKeepsPrefix | src/consultaLivros/ml/gerenciador_de_modelos.py:37 | `ReplaceAll`, Python's `str.replace`: a prefix on which no occurrence of the pattern starts is copied unchanged |
| Text.ReplaceAllNoOccurrence | src/consultaLivros/ml/gerenciador_de_modelos.py:37 | `ReplaceAll`: a string without the pattern is returned as it is |
| GerenciadorDeModelos.ReadFindsFile | src/consultaLivros/ml/gerenciador_de_modelos.py:28-45 | `Le`: opening fails with FileNotFoundError exactly when no file has the name; what is read is that file's content |
| GerenciadorDeModelos.ReadAfterWrite | src/consultaLivros/ml/treinamento_modelo.py:96-103 | `Grava`: a written file reads back as what was written, and other names read as before |
| GerenciadorDeModelos.WriteOrigin | src/consultaLivros/ml/treinamento_modelo.py:96-103 | `Grava`: after a write, each file is either the new one or an untouched file of another name |
| GerenciadorDeModelos.CarregaModelos | src/consultaLivros/ml/gerenciador_de_modelos.py:34-39 | fails exactly when some model file cannot be unpickled; otherwise the keys are exactly the derived names of the model files, each mapped to the content of such a file |
| GerenciadorDeModelos.CarregarModelosDoDisco | src/consultaLivros/ml/gerenciador_de_modelos.py:17-47 | `metricas` is never touched; a missing or unreadable encoder.pkl leaves the cache alone; a bad tfidf.pkl leaves it with only the encoder replaced; once both artefacts load, both are replaced; `modelos` changes only when in addition every model file loads, and is then replaced wholesale |
| TreinamentoModelo.BomRating | src/consultaLivros/ml/treinamento_modelo.py:61 | the label is 0 or 1, and 1 exactly when rating ≥ 4 |
| TreinamentoModelo.Rotulos | src/consultaLivros/ml/treinamento_modelo.py:61-63 | a frame without `rating` fails (KeyError); otherwise one binary label per row, 1 exactly for rating ≥ 4 |
| TreinamentoModelo.Features | src/consultaLivros/ml/treinamento_modelo.py:62 | X has exactly the columns other than `rating` and `bom_rating`, the same rows, and the values copied |
| TreinamentoModelo.Metricas | src/consultaLivros/ml/treinamento_modelo.py:31-34 | exactly the keys `acuracia` and `f1_score_macro`, holding the report's accuracy and macro F1 |
| TreinamentoModelo.TreinaTodos | src/consultaLivros/ml/treinamento_modelo.py:76-79 | fails exactly when some job fails; otherwise one result per name, in name order, holding that job's model and metrics |
| TreinamentoModelo.PorNomeKeys | src/consultaLivros/ml/treinamento_modelo.py:82-83 | the dictionary's keys are exactly the results' names |
| TreinamentoModelo.PorNomeLaterWins | src/consultaLivros/ml/treinamento_modelo.py:82-83 | a name's value comes from its last result |
| TreinamentoModelo.Gravacoes | src/consultaLivros/ml/treinamento_modelo.py:96-103 | one `modelo_<nome>.pkl` per model in dictionary order, then encoder.pkl and tfidf.pkl |
| TreinamentoModelo.GravaTodosLastWrite | src/consultaLivros/ml/treinamento_modelo.py:96-103 | after a series of writes, a name reads back as its last write |
| TreinamentoModelo.ModelWritesDistinct | src/consultaLivros/ml/treinamento_modelo.py:96-103 | the five files a run writes have five different names |
| TreinamentoModelo.WrittenNameLengths | src/consultaLivros/ml/treinamento_modelo.py:96-103 | the files a run writes are named with 24, 30, 14, 11 and 9 characters |
| TreinamentoModelo.GravaTodosOtherName | src/consultaLivros/ml/treinamento_modelo.py:96-103 | a name that none of the writes uses reads afterwards as it did before |
| TreinamentoModelo.TrainingFailureChangesNothing | src/consultaLivros/ml/treinamento_modelo.py:57-108 | `TreinarECarregarModelosEmCache`: an empty frame, or an exception before the swap, leaves both cache and disk as they were |
| TreinamentoModelo.ReadOnlyDiskUntouched | src/consultaLivros/ml/treinamento_modelo.py:93-108 | a disk that refuses the writes is left as it was |
| TreinamentoModelo.TrainingSwapsCache | src/consultaLivros/ml/treinamento_modelo.py:68-90 | `TreinarECarregarModelosEmCache`: a successful run installs the new encoder and vectoriser and exactly the three models random_forest, regressao_logistica and svm, each fitted on X and y with its metrics, whether or not the disk writes succeed |
| TreinamentoModelo.TrainingPersists | src/consultaLivros/ml/treinamento_modelo.py:85-103 | on a writable disk every cached model and both artefacts read back from their files |
| TreinamentoModelo.ModelNamesRoundTrip | src/consultaLivros/ml/treinamento_modelo.py:68-97 | the three model names pass the load filter and derive back to themselves |
| TreinamentoModelo.TrainedFilesReadBack | src/consultaLivros/ml/treinamento_modelo.py:96-103 | each model file, encoder.pkl and tfidf.pkl read back as written |
| TreinamentoModelo.LoadTrainedDirectory | src/consultaLivros/ml/gerenciador_de_modelos.py:34-41 | loading a freshly trained directory with no earlier model files yields exactly the trained models |
| TreinamentoModelo.TrainThenLoad | src/consultaLivros/ml/gerenciador_de_modelos.py:17-41 | training followed by a later `carregar_modelos_do_disco` on the written directory gives back the models, encoder and vectoriser the training cached; the metrics are not persisted, so the loading cache keeps its own |
| ApiMl.CarregarModeloEEncoder | src/consultaLivros/rotas/api_ml.py:20-46 | with no escaping error the cache is all-empty or all-set; a missing file clears all three slots; it ends without an error exactly when no file read before the first missing one is unreadable; three readable files fill all three slots |
| ApiMl.TrainedModelNotServed | src/consultaLivros/rotas/api_ml.py:20-46 | the start-up load reads modelo_livros.pkl, encoder_livros.pkl and tfidf_livros.pkl, which training never writes: unless modelo_livros.pkl was already present, loading after any training run leaves the three slots empty |
| ApiMl.Numericas | src/consultaLivros/rotas/api_ml.py:56-57 | the numeric columns are preco, rating and disponibilidade, with availability as 1 or 0 |
| ApiMl.Reindexa | src/consultaLivros/rotas/api_ml.py:70-72 | fails exactly when the row has a repeated label; otherwise it has exactly the requested columns in order, with a column the row has keeping its value and a missing one filled with 0 |
| ApiMl.PrepararInput | src/consultaLivros/rotas/api_ml.py:49-74 | a missing artefact fails; a prepared row has exactly the model's feature columns in the model's order |
| ApiMl.PreparedRowAligned | src/consultaLivros/rotas/api_ml.py:68-72 | in a prepared row, columns the book has keep their values, columns it lacks are 0, and features the model lacks are dropped |
| ApiMl.NumericFeaturesKept | src/consultaLivros/rotas/api_ml.py:56-72 | price and rating reach the model unchanged, and availability as 1 or 0, wherever the model has those columns |
| ApiMl.GetPrediction | src/consultaLivros/rotas/api_ml.py:117-142 | 503 when no model is loaded, before any preprocessing; otherwise 400 exactly when preprocessing or predict fails; on success the title and the predicted class |
| LogsRepositorio.CriaLogRequest | src/consultaLivros/repositorios/logs_repositorio.py:6-15 | exactly one entry is appended, holding the given method, path, status code and time, stamped now; existing entries are untouched |
| LogsRepositorio.DeletaLogsAntigos | src/consultaLivros/repositorios/logs_repositorio.py:22-28 | the kept entries are exactly those stamped at or after now − dias; the count returned is old size − new size, which is the number stamped strictly before the cutoff |
| LogsRepositorio.CutoffEntryKept | src/consultaLivros/repositorios/logs_repositorio.py:25 | an entry stamped exactly at the cutoff survives |
| LogsRepositorio.LongerRetentionDeletesLess | src/consultaLivros/repositorios/logs_repositorio.py:24-26 | a larger `dias` never deletes more entries |

## Left out

- Selenium, `urljoin`, ChromeDriverManager and the home-page menu lookup are I/O. Each category is given as the finite sequence of pages its "next" chain visits, so a cycle of "next" links is outside the model. Running off the end of that sequence ends the walk.
- The price text is parsed as a float. The card carries the parsed `real`, or `None` when parsing raises.
- BookScraper.Card: `None` in `titulo` or `imagem` stands for an element lookup that raised, so such a card gives no record. Selenium's `get_attribute` returns `None` without raising when the element is found but lacks the `title` or `src` attribute (raspagem/book_scraper.py:7 and :35). The source then keeps a record with a null title or image. That case is outside the model, which promises nothing about it.
- scikit-learn's fit, transform, `feature_names_in_` and predict are function parameters:
  - `train_test_split` (seed 42), the evaluation and the refit are folded into one training function per model name;
  - `classification_report` appears only through the two figures read from it.
- ml/preparacao_dados.py is not part of this model. Its result (feature frame, encoder, vectoriser) is an input of the training run.
- joblib's `Parallel` and the cache lock are concurrency. The cache swap and the disk load are each one atomic step.
- Disk I/O:
  - pickle and file access are abstracted as a sequence of named files;
  - `os.makedirs` is left out;
  - the disk writes of a training run either all succeed or leave the disk unchanged;
  - the listing position of a rewritten file is not kept, because `os.listdir` promises no order.
- Authentication (JWT, bcrypt) and the user, token, admin and scraping-trigger routes are thin wrappers over libraries, so they are left out.
- Framework plumbing is left out: FastAPI dependency injection, SQLAlchemy sessions and `refresh`, `database.py`, `main.py`, the logging middleware, the periodic cleanup job and the dashboard.
- The `/features`, `/training-data` and `/train` routes of rotas/api_ml.py are left out. They only call ml/preparacao_dados.py or schedule training.
- ApiLivros.SearchLivros: `ilike` is modelled as ASCII case-insensitive substring search. A `%` or `_` in a search term is a literal character here, not an SQL wildcard, and non-ASCII case folding is not modelled.
- ApiLivros.PrecoMedio: the mean is an exact real quotient, not a floating-point average.
- ApiLivros.OrdenaPorRating: the order of books with equal ratings is left to the database by the source. The model keeps them in table order, and the contracts do not depend on that choice.
- Timestamps are integers counting seconds, and `datetime.now()` is a parameter.
- `rodar_scraper_completo` with no argument (the `__main__` block) raises a `TypeError` before doing anything, so it is left out. An empty task id stands for the falsy `id_tarefa`.
- A failing task update inside `rodar_scraper_completo` is left out: the task was found at the start and every later update targets it.
- The creation timestamps `criado_em` and `finalizado_em` of tasks and registry records are not modelled.
- ApiMl.Reindexa: pandas raises on a frame whose own labels repeat. That case is modelled as a failure, with no finer distinction between the errors pandas raises.
- rotas/api_ml.py:4 imports `treinar_e_salvar_modelo`, which ml/treinamento_modelo.py does not define. As written, the module cannot be imported. The model describes the endpoints as written, as if the import succeeded.
- Training writes `modelo_<nome>.pkl`, encoder.pkl and tfidf.pkl, and only `carregar_modelos_do_disco` reads those names. That function runs only from its own `__main__` block (ml/gerenciador_de_modelos.py:49-50). The application's start-up load at main.py:16 reads modelo_livros.pkl, encoder_livros.pkl and tfidf_livros.pkl. So a trained model never reaches `/predictions`. `ApiMl.TrainedModelNotServed` states this; the model does not reconcile the names.
- The endpoint cache at rotas/api_ml.py:14-18 has no "lock" key, though training takes `cache["lock"]`. The two caches are kept as separate records, and training is modelled on the record with the four keys of ml/gerenciador_de_modelos.py.
- modelos/registro_modelo.py:11 uses `datetime` without importing it. The version is a parameter of the registration, so the default never arises.
