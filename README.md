# Forum topic lifecycle, modelled in Dafny

This project models the topic service of a discussion-forum backend. Users post topics tied to a
course, and other users reply to them. The service creates topics behind four guards:

- a null title or message;
- an unknown login;
- a (title, message) pair that already exists;
- an unknown course.

The service also overwrites a topic's title and message. It deletes a topic only softly, by
setting its `status` flag to false, and never removes the stored entry. It builds three views:

- a detail view that hides soft-deleted topics and copies the replies in order;
- a listing of the active topics;
- an administrative listing that is either filtered by course and year or ordered by creation time.

The adjoining reply record builds a reply entity from its own text and flag and from the author,
topic and timestamp it is given.

Modules:

- `Comum`: `Option` (a nullable reference or `Optional`) and `Result` (a call that returns or throws).
- `Erros`: the exceptions the service throws and their messages.
  - `IllegalArgumentException` is raised for a null field or a duplicate pair.
  - It is also raised, wrapping the store's integrity violation, when an update is refused.
  - `ValidacaoException` is raised for an unknown course.
  - `IllegalStateException` is raised for a missing topic on update or delete.
  - `EntityNotFoundException` is raised by `findById`.
  - A separate error stands for a login that the user directory does not know.
- `Entidades`: users, courses, replies and topics as values.
- `CadastroResposta`: the reply request record and its `toEntity`.
- `TopicoRepositorio`: the store and its queries.
  - The store is a map from id to topic plus the next id to assign.
  - The queries cover existence by (title, message), active topics, all topics by ascending creation time, and course-and-year.
  - Its invariant, `Coerente`, says three things. Each topic is filed under its own id. Every id is below the next id. Every stored reply has its store-assigned id and names its topic.
- `TopicoConsultas`: the views and the read operations, as functions of a snapshot of the store.
- `TopicoServico`: the class `TopicoService`.
  - The user and course directories are `const` maps.
  - The store is the `var` fields `topicos` and `proximoId`.
  - `Cadastrar`, `Atualizar` and `Deletar` are methods that say exactly what the new store is.
  - The lemmas beside them say what each change does to the views and invariants.

The current time (`LocalDateTime.now()`) is an integer parameter `agora`. The calendar year of a
timestamp is a function parameter `anoDe`.

The model follows the code on these points:

- `cadastrar` rejects only a null title or message; an empty string passes.
- A duplicate pair raises the same `IllegalArgumentException` as a null field, not a separate conflict error.
- Nothing in `atualizar` checks for duplicates. `AtualizacaoPodeDuplicarPar` shows that an update
  can leave two topics with the same pair, a uniqueness that `cadastrar` otherwise keeps
  (`CadastroPreservaUnicidade`).

## Model

| member | source | states |
|---|---|---|
| `TopicoServico.TopicoService.Cadastrar` | src/main/java/hub/forum/api/domain/topico/TopicoService.java:32-58 | The guards run in this order: null title or message, unknown login, existing (title, message) pair of any status or course, unknown course. The first one that fails gives its own error and leaves the store unchanged. The call succeeds exactly when all four pass. It then stores one active topic without replies under the fresh id it returns. The topic has the given text, the resolved author and course and the given time. No other topic changes. Pair uniqueness is kept. |
| `TopicoServico.CadastroPreservaUnicidade` | src/main/java/hub/forum/api/domain/topico/TopicoService.java:38-42 | Storing a topic under an unused id, when its pair is not yet stored, keeps all (title, message) pairs unique. |
| `TopicoServico.DetalheAposCadastro` | src/main/java/hub/forum/api/domain/topico/TopicoService.java:49-57 | A newly created topic has a detail view with its text, author and course, status true and no replies. It appears in the active listing. |
| `TopicoServico.TopicoService.Atualizar` | src/main/java/hub/forum/api/domain/topico/TopicoService.java:85-99 | A missing id raises `IllegalStateException`. A null title or message raises `IllegalArgumentException` wrapping the integrity violation. On failure the store is unchanged. Otherwise only the title and message of that topic change, whatever its status. |
| `TopicoServico.AtualizacaoSoTextos` | src/main/java/hub/forum/api/domain/topico/TopicoService.java:86-93 | An update keeps the id, author, course, creation time, status and replies. It leaves other topics and the set of ids unchanged. A soft-deleted topic stays hidden from the detail view. |
| `TopicoServico.AtualizacaoPodeDuplicarPar` | src/main/java/hub/forum/api/domain/topico/TopicoService.java:85-98 | An update does not check for duplicates: from a store with unique pairs, it can produce two topics with the same pair. |
| `TopicoServico.TopicoService.Deletar` | src/main/java/hub/forum/api/domain/topico/TopicoService.java:101-107 | A missing id raises `IllegalStateException` and leaves the store unchanged. Otherwise the call succeeds and the only change is that the topic's status becomes false. |
| `TopicoServico.DesativacaoIdempotente` | src/main/java/hub/forum/api/domain/topico/TopicoService.java:102-107 | Soft deletion is idempotent. It keeps every id, and it changes only the status of the deleted topic. |
| `TopicoServico.DesativacaoOculta` | src/main/java/hub/forum/api/domain/topico/TopicoService.java:101-117 | After a soft delete, the detail view returns none and the active listing has no entry with that id. `findById` still returns the topic with status false. The administrative listing still shows it, and every entry for it shows status false. |
| `TopicoConsultas.FindById` | src/main/java/hub/forum/api/domain/topico/TopicoService.java:109-112 | Returns the stored topic of any status when the id exists. Otherwise raises `EntityNotFoundException` with its message. |
| `TopicoConsultas.DetalharTopico` | src/main/java/hub/forum/api/domain/topico/TopicoService.java:114-117 | Gives none exactly when the id is absent or the topic's status is false. Otherwise gives the topic's detail view. |
| `TopicoConsultas.DetalharSseFindByIdAtivo` | src/main/java/hub/forum/api/domain/topico/TopicoService.java:109-117 | The detail view exists exactly when `findById` succeeds with an active topic, and it is the view of that topic. |
| `TopicoConsultas.MapToDetalhamentoDto` | src/main/java/hub/forum/api/domain/topico/TopicoService.java:119-129 | The view copies the topic's id, text and status, and gives author and course summaries. It has one reply entry per reply, in the same order. Each entry copies the reply's id, message, creation time, solution flag, author id and topic id. |
| `TopicoConsultas.DetalheRespostasDoTopico` | src/main/java/hub/forum/api/domain/topico/TopicoService.java:120-122 | In a coherent store, the detail view of topic `id` carries `id`. Each of its reply entries names topic `id` and has an id, since stored replies are saved ones. |
| `TopicoConsultas.Mapear` | src/main/java/hub/forum/api/domain/topico/TopicoService.java:120-122 | Mapping keeps the length and order: entry `i` is the image of element `i`. |
| `TopicoConsultas.GetAllTopicosAtivos` | src/main/java/hub/forum/api/domain/topico/TopicoService.java:60-69 | Every entry is the summary of a stored topic whose status is true, and ids strictly increase, so no topic is listed twice. `AtivosSoAtivos` adds that every active topic is listed and that the course name and year are ignored. |
| `TopicoConsultas.TopicosDaListagem` | src/main/java/hub/forum/api/domain/topico/TopicoService.java:72-77 | The course-and-year query runs only when both filters are present, otherwise the query ordered by creation time; either way every topic it yields is a stored topic. |
| `TopicoConsultas.GetAllTopicosOrderByDataCriacao` | src/main/java/hub/forum/api/domain/topico/TopicoService.java:71-83 | Every entry is the summary of a stored topic and carries that topic's status. Without both filters there is one entry per stored topic. `ListagemSemFiltro`, `ListagemSemFiltroOrdenada` and `ListagemFiltrada` state which topics are listed and the order. |
| `TopicoConsultas.AtivosSoAtivos` | src/main/java/hub/forum/api/domain/topico/TopicoService.java:60-69 | The active listing holds a stored topic's summary exactly when that topic is active. Every entry is the summary of an active stored topic. The course name and year make no difference. |
| `TopicoConsultas.ListagemSemFiltro` | src/main/java/hub/forum/api/domain/topico/TopicoService.java:71-83 | Unless both filters are given, the listing is built from every stored topic of any status, each exactly once, in ascending creation time. Every stored topic's summary, with its status, is listed, and every entry is a stored topic's summary. |
| `TopicoConsultas.ListagemSemFiltroOrdenada` | src/main/java/hub/forum/api/domain/topico/TopicoService.java:76-82 | Without both filters, the entries come in ascending creation time of the stored topics they summarise. |
| `TopicoConsultas.ListagemFiltrada` | src/main/java/hub/forum/api/domain/topico/TopicoService.java:73-74 | With both filters, a stored topic of any status is listed exactly when its course has that name and it was created in that year. Every entry is the summary of a stored topic, with its status. |
| `TopicoRepositorio.OrdenarPorData` | src/main/java/hub/forum/api/domain/topico/TopicoService.java:76 | The ordered query returns its input rearranged, as the same multiset, with creation times ascending. |
| `TopicoRepositorio.FindAll` | src/main/java/hub/forum/api/domain/topico/TopicoService.java:76 | Lists a topic exactly when it is stored under an id below the bound. Ids strictly increase, so no topic is listed twice. |
| `TopicoRepositorio.Filtrar` | src/main/java/hub/forum/api/domain/topico/TopicoService.java:62 | Keeps exactly the topics of the input that satisfy the predicate. It keeps ids increasing when they were. |
| `TopicoRepositorio.ExistsByTituloAndMensagem` | src/main/java/hub/forum/api/domain/topico/TopicoService.java:40 | True exactly when some stored topic, of any status or course, has this title and this message. |
| `TopicoRepositorio.FindByStatusTrue` | src/main/java/hub/forum/api/domain/topico/TopicoService.java:62 | Lists a topic exactly when it is stored and its status is true, with ids strictly increasing. |
| `TopicoRepositorio.FindByCursoNomeAndAno` | src/main/java/hub/forum/api/domain/topico/TopicoService.java:74 | Lists a stored topic of any status exactly when its course has the given name and `anoDe` of its creation time is the given year, with ids strictly increasing. This meaning is taken from the query's name. |
| `TopicoRepositorio.FindAllByOrderByDataCriacaoAsc` | src/main/java/hub/forum/api/domain/topico/TopicoService.java:76 | Lists every stored topic, of any status, each once, as a rearrangement of the stored topics, with creation times ascending. |
| `CadastroResposta.DadosCadastroResposta.ToEntity` | src/main/java/hub/forum/api/domain/resposta/DadosCadastroResposta.java:9-17 | The reply has the record's message and solution flag, and the given author, topic and creation time. Its id is left unset. |
| `CadastroResposta.ToEntityIgnoraIds` | src/main/java/hub/forum/api/domain/resposta/DadosCadastroResposta.java:8-16 | The record's `autorId` and `topicoId` are never read. Records that agree on message and flag build the same reply. |
| `TopicoConsultas.RespostaCadastradaNoDetalhe` | src/main/java/hub/forum/api/domain/resposta/DadosCadastroResposta.java:9-17 | The reply entry mapping of the detail view, applied to an unsaved reply built by `toEntity`, gives no id, the record's message and flag, the given time, and the ids of the given author and topic. A stored reply has an id assigned by the store. |

## Left out

- Pagination (`Pageable` and `Page` slicing): listings return the whole result instead of one page.
- The order of `findByStatusTrue` and `findByCursoNomeAndAno`: their queries are not part of this model. The model lists in ascending id order and proves only membership.
- `findByCursoNomeAndAno` is modelled from its name, as course-name equality and creation-year equality.
- `OrdenarPorData`: the order of topics with equal creation times is the database's. The model keeps them in id order but proves nothing about it.
- `UsuarioService.findByLogin`: `cadastrar` does not test the user it gets back for null (TopicoService.java:38, 52). The model takes `findByLogin` to raise on an unknown login, so a topic without an author is never stored.
- `CursoService.buscarCurso` is not part of this model. It is a lookup in the course map, and a missing name is its null result.
- Replies are attached by `RespostaService`, which is not part of this model. Stored replies come from the store the service is built with.
- `TopicoServico.TopicoService.Atualizar`: the store's integrity check is modelled only as rejecting a null title or message. Any other database constraint is not modelled.
- Transactions and rollback: a failed operation leaves the store as it was.
- The race between the duplicate check and the insert under concurrent requests: the model is sequential.
- `LocalDateTime` calendar arithmetic: timestamps are integers, and the year is the parameter `anoDe`.
- Id width: ids are unbounded naturals, not 64-bit `Long`s.
- Null reply fields: reply text and flag are never null in the model.
- The request type of `atualizar`: it is a full detail record, of which only the title and message are read; the model takes just those two.
- Shared author and course entities: a topic holds copies of its author and course, where the code holds references to shared entities. The copies cannot go stale here, because the model never changes the directories.
- A null course name: the course name in `DadosCadastroTopico` is always a string, so the model cannot express passing null to `buscarCurso`.
- HTTP routing, authentication and response building in the controllers are not modelled.
