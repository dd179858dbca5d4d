/** The read side of the topic service: the flattened views it returns and the functions
    that build them from a snapshot of the store. */
module TopicoConsultas {
  import opened Comum
  import opened Erros
  import opened Entidades
  import opened TopicoRepositorio
  import opened CadastroResposta

  datatype DadosDetalhamentoUsuario = DadosDetalhamentoUsuario(id: nat, nome: string, login: string)

  datatype DadosDetalhamentoCurso = DadosDetalhamentoCurso(id: nat, nome: string, categoria: string)

  datatype DadosDetalhamentoResposta = DadosDetalhamentoResposta(
    id: Option<nat>,
    mensagem: string,
    dataCriacao: int,
    solucao: bool,
    autorId: nat,
    topicoId: nat)

  /** The detail view of one topic, with its replies. */
  datatype DadosDetalhamentoTopico = DadosDetalhamentoTopico(
    id: nat,
    titulo: string,
    mensagem: string,
    autor: DadosDetalhamentoUsuario,
    curso: DadosDetalhamentoCurso,
    respostas: seq<DadosDetalhamentoResposta>,
    status: bool)

  /** An entry of the active-topic listing: no status, no replies. */
  datatype DadosDetalhamentoTopicoAtivo = DadosDetalhamentoTopicoAtivo(
    id: nat,
    titulo: string,
    mensagem: string,
    autor: DadosDetalhamentoUsuario,
    curso: DadosDetalhamentoCurso)

  /** An entry of the administrative listing: carries the status flag. */
  datatype DadosListagemTopico = DadosListagemTopico(
    id: nat,
    titulo: string,
    mensagem: string,
    autor: DadosDetalhamentoUsuario,
    curso: DadosDetalhamentoCurso,
    status: bool)

  /** Applies `f` to every element, keeping the order (`Page.map`, `stream().map().toList()`). */
  function Mapear<A, B>(s: seq<A>, f: A -> B): (r: seq<B>)
    ensures |r| == |s|
    ensures forall i | 0 <= i < |s| :: r[i] == f(s[i])
  {
    if s == [] then [] else [f(s[0])] + Mapear(s[1..], f)
  }

  function ResumoUsuario(u: Usuario): DadosDetalhamentoUsuario
  {
    DadosDetalhamentoUsuario(u.id, u.nome, u.login)
  }

  function ResumoCurso(c: Curso): DadosDetalhamentoCurso
  {
    DadosDetalhamentoCurso(c.id, c.nome, c.categoria)
  }

  function ResumoResposta(r: Resposta): DadosDetalhamentoResposta
  {
    DadosDetalhamentoResposta(r.id, r.mensagem, r.dataCriacao, r.solucao, r.autor.id, r.topico)
  }

  function ResumoAtivo(t: Topico): DadosDetalhamentoTopicoAtivo
  {
    DadosDetalhamentoTopicoAtivo(t.id, t.titulo, t.mensagem, ResumoUsuario(t.autor), ResumoCurso(t.curso))
  }

  function ResumoListagem(t: Topico): DadosListagemTopico
  {
    DadosListagemTopico(t.id, t.titulo, t.mensagem, ResumoUsuario(t.autor), ResumoCurso(t.curso), t.status)
  }

  /** `mapToDetalhamentoDto`: the detail view of a topic. Its reply list has one entry per
      reply, in the topic's order, each copying the reply's id, text, creation time,
      solution flag, author id and topic id. */
  function MapToDetalhamentoDto(t: Topico): (d: DadosDetalhamentoTopico)
    ensures d.id == t.id && d.titulo == t.titulo && d.mensagem == t.mensagem && d.status == t.status
    ensures d.autor == DadosDetalhamentoUsuario(t.autor.id, t.autor.nome, t.autor.login)
    ensures d.curso == DadosDetalhamentoCurso(t.curso.id, t.curso.nome, t.curso.categoria)
    ensures |d.respostas| == |t.respostas|
    ensures forall i | 0 <= i < |t.respostas| ::
      && d.respostas[i].id == t.respostas[i].id
      && d.respostas[i].mensagem == t.respostas[i].mensagem
      && d.respostas[i].dataCriacao == t.respostas[i].dataCriacao
      && d.respostas[i].solucao == t.respostas[i].solucao
      && d.respostas[i].autorId == t.respostas[i].autor.id
      && d.respostas[i].topicoId == t.respostas[i].topico
  {
    DadosDetalhamentoTopico(t.id, t.titulo, t.mensagem, ResumoUsuario(t.autor), ResumoCurso(t.curso),
                            Mapear(t.respostas, ResumoResposta), t.status)
  }

  /** `detalharTopico`: the detail view of an active topic; absent and soft-deleted topics
      both give `None`. */
  function DetalharTopico(topicos: Topicos, id: nat): (r: Option<DadosDetalhamentoTopico>)
    ensures r == None <==> id !in topicos || !topicos[id].status
    ensures r.Some? ==> r.value == MapToDetalhamentoDto(topicos[id])
  {
    if id in topicos && topicos[id].status then Some(MapToDetalhamentoDto(topicos[id])) else None
  }

  /** `findById`: the stored topic of any status, or `EntityNotFoundException`. */
  function FindById(topicos: Topicos, id: nat): (r: Result<Topico, Erro>)
    ensures r.Success? <==> id in topicos
    ensures r.Success? ==> r.value == topicos[id]
    ensures r.Failure? ==> r.error == EntityNotFound(MsgAusente)
  {
    if id in topicos then Success(topicos[id]) else Failure(EntityNotFound(MsgAusente))
  }

  /** `getAllTopicosAtivos`: summaries of the active topics. The course name and year are
      accepted and ignored. Every entry summarises a stored active topic, and no topic is
      listed twice (`AtivosSoAtivos` adds that every active topic is listed). */
  function GetAllTopicosAtivos(topicos: Topicos, proximoId: nat, nomeCurso: Option<string>,
                               ano: Option<int>): (r: seq<DadosDetalhamentoTopicoAtivo>)
    requires IdsCoerentes(topicos)
    ensures forall i | 0 <= i < |r| ::
      r[i].id in topicos && topicos[r[i].id].status && r[i] == ResumoAtivo(topicos[r[i].id])
    ensures forall i, j | 0 <= i < j < |r| :: r[i].id < r[j].id
  {
    var ativos := FindByStatusTrue(topicos, proximoId);
    assert forall i | 0 <= i < |ativos| :: ativos[i] in ativos;
    Mapear(ativos, ResumoAtivo)
  }

  /** The topics behind the administrative listing: the course-and-year query when both
      filters are given, otherwise every topic by ascending creation time. Either way they
      are stored topics. */
  function TopicosDaListagem(topicos: Topicos, proximoId: nat, cursoNome: Option<string>,
                             ano: Option<int>, anoDe: int -> int): (s: seq<Topico>)
    requires IdsCoerentes(topicos)
    ensures forall t | t in s :: Armazenado(topicos, t)
  {
    if cursoNome.Some? && ano.Some? then
      FindByCursoNomeAndAno(topicos, proximoId, cursoNome.value, ano.value, anoDe)
    else
      var ordenados := FindAllByOrderByDataCriacaoAsc(topicos, proximoId);
      assert forall t | t in ordenados :: t in multiset(FindAll(topicos, proximoId));
      ordenados
  }

  /** `getAllTopicosOrderByDataCriacao`: summaries, with status, of the administrative
      listing. Every entry summarises a stored topic and carries its status; without both
      filters there is one entry per stored topic (`ListagemSemFiltro` and
      `ListagemFiltrada` say which topics are listed, and in what order). */
  function GetAllTopicosOrderByDataCriacao(topicos: Topicos, proximoId: nat, cursoNome: Option<string>,
                                           ano: Option<int>, anoDe: int -> int): (r: seq<DadosListagemTopico>)
    requires IdsCoerentes(topicos)
    ensures forall i | 0 <= i < |r| :: r[i].id in topicos && r[i] == ResumoListagem(topicos[r[i].id])
    ensures (cursoNome.None? || ano.None?) ==> |r| == |FindAll(topicos, proximoId)|
  {
    var s := TopicosDaListagem(topicos, proximoId, cursoNome, ano, anoDe);
    assert forall i | 0 <= i < |s| :: s[i] in s;
    assert (cursoNome.None? || ano.None?) ==> |multiset(s)| == |multiset(FindAll(topicos, proximoId))|;
    Mapear(s, ResumoListagem)
  }

  /** The detail view hides exactly what `findById` would return with status false. */
  lemma DetalharSseFindByIdAtivo(topicos: Topicos, id: nat)
    ensures DetalharTopico(topicos, id).Some? <==> FindById(topicos, id).Success? && FindById(topicos, id).value.status
    ensures DetalharTopico(topicos, id).Some? ==> DetalharTopico(topicos, id).value == MapToDetalhamentoDto(FindById(topicos, id).value)
  {
  }

  /** In a coherent store, every reply entry of a detail view names the viewed topic. */
  lemma DetalheRespostasDoTopico(topicos: Topicos, proximoId: nat, id: nat)
    requires Coerente(topicos, proximoId)
    requires DetalharTopico(topicos, id).Some?
    ensures DetalharTopico(topicos, id).value.id == id
    ensures forall r | r in DetalharTopico(topicos, id).value.respostas :: r.topicoId == id && r.id.Some?
  {
    var d := DetalharTopico(topicos, id).value;
    forall r | r in d.respostas
      ensures r.topicoId == id && r.id.Some?
    {
      var i :| 0 <= i < |d.respostas| && d.respostas[i] == r;
      assert topicos[id].respostas[i].topico == id && topicos[id].respostas[i].id.Some?;
    }
  }

  /** A reply built by `ToEntity`, once shown in a detail view, carries the record's text
      and flag, the creation time given, and the ids of the author and topic given, with
      no id yet. */
  lemma RespostaCadastradaNoDetalhe(dados: DadosCadastroResposta, autor: Usuario, topico: Topico,
                                    dataCriacao: int)
    ensures ResumoResposta(dados.ToEntity(autor, topico, dataCriacao))
         == DadosDetalhamentoResposta(None, dados.mensagem, dataCriacao, dados.solucao, autor.id, topico.id)
  {
  }

  /** The active listing holds the summary of a stored topic exactly when that topic is
      active, and nothing else; nomeCurso and ano make no difference. */
  lemma {:induction false} AtivosSoAtivos(topicos: Topicos, proximoId: nat, nomeCurso: Option<string>, ano: Option<int>)
    requires IdsCoerentes(topicos) && AbaixoDe(topicos, proximoId)
    ensures GetAllTopicosAtivos(topicos, proximoId, nomeCurso, ano) == GetAllTopicosAtivos(topicos, proximoId, None, None)
    ensures forall k | k in topicos ::
      ResumoAtivo(topicos[k]) in GetAllTopicosAtivos(topicos, proximoId, nomeCurso, ano) <==> topicos[k].status
    ensures forall v | v in GetAllTopicosAtivos(topicos, proximoId, nomeCurso, ano) ::
      v.id in topicos && topicos[v.id].status && v == ResumoAtivo(topicos[v.id])
  {
    var s := FindByStatusTrue(topicos, proximoId);
    var r := GetAllTopicosAtivos(topicos, proximoId, nomeCurso, ano);
    forall k | k in topicos
      ensures ResumoAtivo(topicos[k]) in r <==> topicos[k].status
    {
      if topicos[k].status {
        assert topicos[k] in s;
        var i :| 0 <= i < |s| && s[i] == topicos[k];
        assert r[i] == ResumoAtivo(topicos[k]);
      }
      if ResumoAtivo(topicos[k]) in r {
        var i :| 0 <= i < |r| && r[i] == ResumoAtivo(topicos[k]);
        assert s[i] in s;
        assert s[i] == topicos[k];
      }
    }
    forall v | v in r
      ensures v.id in topicos && topicos[v.id].status && v == ResumoAtivo(topicos[v.id])
    {
      var i :| 0 <= i < |r| && r[i] == v;
      assert s[i] in s;
    }
  }

  /** Summarising a sequence of stored topics: the summary of a stored topic is listed
      exactly when the topic is in the sequence, and every entry is the summary of the
      topic stored under its id. */
  lemma ListagemDe(topicos: Topicos, s: seq<Topico>)
    requires IdsCoerentes(topicos)
    requires forall t | t in s :: Armazenado(topicos, t)
    ensures forall k | k in topicos :: ResumoListagem(topicos[k]) in Mapear(s, ResumoListagem) <==> topicos[k] in s
    ensures forall v | v in Mapear(s, ResumoListagem) :: v.id in topicos && v == ResumoListagem(topicos[v.id])
  {
    var r := Mapear(s, ResumoListagem);
    forall k | k in topicos
      ensures ResumoListagem(topicos[k]) in r <==> topicos[k] in s
    {
      if topicos[k] in s {
        var i :| 0 <= i < |s| && s[i] == topicos[k];
        assert r[i] == ResumoListagem(topicos[k]);
      }
      if ResumoListagem(topicos[k]) in r {
        var i :| 0 <= i < |r| && r[i] == ResumoListagem(topicos[k]);
        assert s[i] in s;
      }
    }
    forall v | v in r
      ensures v.id in topicos && v == ResumoListagem(topicos[v.id])
    {
      var i :| 0 <= i < |r| && r[i] == v;
      assert s[i] in s;
    }
  }

  /** Without both filters the administrative listing is every stored topic, of any
      status, each entry carrying its status, in ascending creation time. */
  lemma ListagemSemFiltro(topicos: Topicos, proximoId: nat, cursoNome: Option<string>, ano: Option<int>,
                          anoDe: int -> int)
    requires IdsCoerentes(topicos) && AbaixoDe(topicos, proximoId)
    requires cursoNome.None? || ano.None?
    ensures OrdenadoPorData(TopicosDaListagem(topicos, proximoId, cursoNome, ano, anoDe))
    ensures multiset(TopicosDaListagem(topicos, proximoId, cursoNome, ano, anoDe)) == multiset(FindAll(topicos, proximoId))
    ensures forall k | k in topicos :: ResumoListagem(topicos[k]) in GetAllTopicosOrderByDataCriacao(topicos, proximoId, cursoNome, ano, anoDe)
    ensures forall v | v in GetAllTopicosOrderByDataCriacao(topicos, proximoId, cursoNome, ano, anoDe) ::
      v.id in topicos && v == ResumoListagem(topicos[v.id])
  {
    var s := TopicosDaListagem(topicos, proximoId, cursoNome, ano, anoDe);
    var todos := FindAll(topicos, proximoId);
    forall t | t in s
      ensures Armazenado(topicos, t) && t in todos
    {
      assert t in multiset(s);
    }
    forall k | k in topicos
      ensures topicos[k] in s
    {
      assert topicos[k] in todos;
      assert topicos[k] in multiset(todos);
    }
    ListagemDe(topicos, s);
  }

  /** Without both filters the entries of the administrative listing come in ascending
      creation time of the topics they summarise. */
  lemma ListagemSemFiltroOrdenada(topicos: Topicos, proximoId: nat, cursoNome: Option<string>, ano: Option<int>,
                                  anoDe: int -> int)
    requires IdsCoerentes(topicos)
    requires cursoNome.None? || ano.None?
    ensures forall i, j | 0 <= i < j < |GetAllTopicosOrderByDataCriacao(topicos, proximoId, cursoNome, ano, anoDe)| ::
      topicos[GetAllTopicosOrderByDataCriacao(topicos, proximoId, cursoNome, ano, anoDe)[i].id].dataCriacao
      <= topicos[GetAllTopicosOrderByDataCriacao(topicos, proximoId, cursoNome, ano, anoDe)[j].id].dataCriacao
  {
    var s := TopicosDaListagem(topicos, proximoId, cursoNome, ano, anoDe);
    var r := GetAllTopicosOrderByDataCriacao(topicos, proximoId, cursoNome, ano, anoDe);
    assert OrdenadoPorData(s);
    forall i, j | 0 <= i < j < |r|
      ensures topicos[r[i].id].dataCriacao <= topicos[r[j].id].dataCriacao
    {
      assert s[i] in s && s[j] in s;
      assert r[i] == ResumoListagem(s[i]) && r[j] == ResumoListagem(s[j]);
    }
  }

  /** With both filters the administrative listing holds the summary of a stored topic,
      of any status, exactly when its course has that name and it was created in that year. */
  lemma ListagemFiltrada(topicos: Topicos, proximoId: nat, cursoNome: string, ano: int, anoDe: int -> int)
    requires IdsCoerentes(topicos) && AbaixoDe(topicos, proximoId)
    ensures forall k | k in topicos ::
      ResumoListagem(topicos[k]) in GetAllTopicosOrderByDataCriacao(topicos, proximoId, Some(cursoNome), Some(ano), anoDe)
      <==> topicos[k].curso.nome == cursoNome && anoDe(topicos[k].dataCriacao) == ano
    ensures forall v | v in GetAllTopicosOrderByDataCriacao(topicos, proximoId, Some(cursoNome), Some(ano), anoDe) ::
      v.id in topicos && v == ResumoListagem(topicos[v.id])
  {
    var s := TopicosDaListagem(topicos, proximoId, Some(cursoNome), Some(ano), anoDe);
    assert forall k | k in topicos :: topicos[k] in FindAll(topicos, proximoId);
    ListagemDe(topicos, s);
  }
}
