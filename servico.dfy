/** The topic lifecycle: creation with its guards, update of title and message, and soft
    deletion, over a store that the service owns, plus what these changes do to the views. */
module TopicoServico {
  import opened Comum
  import opened Erros
  import opened Entidades
  import opened TopicoRepositorio
  import opened TopicoConsultas

  /** The creation request; a missing (null) title or message is `None`. */
  datatype DadosCadastroTopico = DadosCadastroTopico(
    titulo: Option<string>,
    mensagem: Option<string>,
    nomeCurso: string)

  /** Each user is filed under its own login and each course under its own name. */
  predicate DiretoriosCoerentes(usuarios: map<string, Usuario>, cursos: map<string, Curso>)
  {
    && (forall l | l in usuarios :: usuarios[l].login == l)
    && (forall n | n in cursos :: cursos[n].nome == n)
  }

  /** The topic `cadastrar` fills in: active and without replies. */
  function NovoTopico(id: nat, titulo: string, mensagem: string, autor: Usuario, curso: Curso,
                      dataCriacao: int): Topico
  {
    Topico(id, titulo, mensagem, autor, curso, dataCriacao, true, [])
  }

  /** The store after topic `id` gets a new title and message. */
  function ComTextos(topicos: Topicos, id: nat, titulo: string, mensagem: string): Topicos
    requires id in topicos
  {
    topicos[id := topicos[id].(titulo := titulo, mensagem := mensagem)]
  }

  /** The store after topic `id` is soft-deleted. */
  function Desativado(topicos: Topicos, id: nat): Topicos
    requires id in topicos
  {
    topicos[id := topicos[id].(status := false)]
  }

  /** The topic service. The user and course directories are collaborators it only reads;
      the topic store is the state it changes. */
  class TopicoService {
    const usuarios: map<string, Usuario>
    const cursos: map<string, Curso>
    var topicos: Topicos
    var proximoId: nat

    ghost predicate Valid()
      reads this
    {
      Coerente(topicos, proximoId) && DiretoriosCoerentes(usuarios, cursos)
    }

    /** A service over the given directories and an existing, coherent store. */
    constructor (usuarios: map<string, Usuario>, cursos: map<string, Curso>, topicos: Topicos, proximoId: nat)
      requires Coerente(topicos, proximoId) && DiretoriosCoerentes(usuarios, cursos)
      ensures Valid()
      ensures this.usuarios == usuarios && this.cursos == cursos
      ensures this.topicos == topicos && this.proximoId == proximoId
    {
      this.usuarios := usuarios;
      this.cursos := cursos;
      this.topicos := topicos;
      this.proximoId := proximoId;
    }

    /** `cadastrar`: the guards run in this order (null title or message, login,
        duplicate pair, course); the first that fails decides the error and nothing is
        stored. Otherwise one active topic without replies is stored under a fresh id. */
    method Cadastrar(dados: DadosCadastroTopico, usuarioLogado: string, agora: int) returns (r: Result<nat, Erro>)
      requires Valid()
      modifies this
      ensures Valid()
      ensures (dados.titulo.None? || dados.mensagem.None?) ==>
        r == Failure(IllegalArgument(MsgObrigatorios, None))
      ensures (dados.titulo.Some? && dados.mensagem.Some? && usuarioLogado !in usuarios) ==>
        r == Failure(LoginNaoEncontrado(usuarioLogado))
      ensures (dados.titulo.Some? && dados.mensagem.Some? && usuarioLogado in usuarios
               && ExistsByTituloAndMensagem(old(topicos), dados.titulo.value, dados.mensagem.value)) ==>
        r == Failure(IllegalArgument(MsgDuplicado, None))
      ensures (dados.titulo.Some? && dados.mensagem.Some? && usuarioLogado in usuarios
               && !ExistsByTituloAndMensagem(old(topicos), dados.titulo.value, dados.mensagem.value)
               && dados.nomeCurso !in cursos) ==>
        r == Failure(Validacao(MsgCursoDesconhecido))
      ensures r.Failure? ==> topicos == old(topicos) && proximoId == old(proximoId)
      ensures r.Success? <==>
        && dados.titulo.Some? && dados.mensagem.Some? && usuarioLogado in usuarios
        && !ExistsByTituloAndMensagem(old(topicos), dados.titulo.value, dados.mensagem.value)
        && dados.nomeCurso in cursos
      ensures r.Success? ==>
        && r.value == old(proximoId) && r.value !in old(topicos)
        && topicos == old(topicos)[r.value := NovoTopico(r.value, dados.titulo.value, dados.mensagem.value,
                                                         usuarios[usuarioLogado], cursos[dados.nomeCurso], agora)]
        && proximoId == old(proximoId) + 1
      ensures old(ParesUnicos(topicos)) ==> ParesUnicos(topicos)
    {
      if dados.titulo.None? || dados.mensagem.None? {
        return Failure(IllegalArgument(MsgObrigatorios, None));
      }
      if usuarioLogado !in usuarios {
        return Failure(LoginNaoEncontrado(usuarioLogado));
      }
      var usuario := usuarios[usuarioLogado];
      if ExistsByTituloAndMensagem(topicos, dados.titulo.value, dados.mensagem.value) {
        return Failure(IllegalArgument(MsgDuplicado, None));
      }
      if dados.nomeCurso !in cursos {
        return Failure(Validacao(MsgCursoDesconhecido));
      }
      var curso := cursos[dados.nomeCurso];
      var topico := NovoTopico(proximoId, dados.titulo.value, dados.mensagem.value, usuario, curso, agora);
      CadastroPreservaUnicidade(topicos, proximoId, topico);
      topicos := topicos[proximoId := topico];
      r := Success(proximoId);
      proximoId := proximoId + 1;
    }

    /** `atualizar`: overwrites the title and message of a topic of any status. A missing
        topic is an `IllegalStateException`; a null title or message is refused by the store
        and reported as an `IllegalArgumentException` wrapping the integrity violation. On
        failure nothing is written. */
    method Atualizar(topicoId: nat, titulo: Option<string>, mensagem: Option<string>) returns (r: Result<(), Erro>)
      requires Valid()
      modifies this
      ensures Valid() && proximoId == old(proximoId)
      ensures topicoId !in old(topicos) ==> r == Failure(IllegalState(MsgAtualizarAusente))
      ensures topicoId in old(topicos) && (titulo.None? || mensagem.None?) ==>
        r == Failure(IllegalArgument(MsgNulos, Some(DataIntegrityViolation)))
      ensures r.Failure? ==> topicos == old(topicos)
      ensures r.Success? <==> topicoId in old(topicos) && titulo.Some? && mensagem.Some?
      ensures r.Success? ==> topicos == ComTextos(old(topicos), topicoId, titulo.value, mensagem.value)
    {
      if topicoId !in topicos {
        return Failure(IllegalState(MsgAtualizarAusente));
      }
      var existente := topicos[topicoId];
      if titulo.None? || mensagem.None? {
        // the store's not-null constraint rejects the save; nothing is written
        return Failure(IllegalArgument(MsgNulos, Some(DataIntegrityViolation)));
      }
      existente := existente.(titulo := titulo.value, mensagem := mensagem.value);
      topicos := topicos[topicoId := existente];
      r := Success(());
    }

    /** `deletar`: soft delete. A missing topic is an `IllegalStateException`; otherwise the
        topic's status becomes false and the entry stays in the store. */
    method Deletar(id: nat) returns (r: Result<(), Erro>)
      requires Valid()
      modifies this
      ensures Valid() && proximoId == old(proximoId)
      ensures id !in old(topicos) ==> r == Failure(IllegalState(MsgAusente)) && topicos == old(topicos)
      ensures id in old(topicos) ==> r == Success(()) && topicos == Desativado(old(topicos), id)
    {
      if id !in topicos {
        return Failure(IllegalState(MsgAusente));
      }
      var topico := topicos[id];
      topico := topico.(status := false);
      topicos := topicos[id := topico];
      r := Success(());
    }
  }

  /** Storing a topic whose (title, message) pair is not yet in the store, under an unused
      id, keeps every pair unique. */
  lemma CadastroPreservaUnicidade(topicos: Topicos, id: nat, t: Topico)
    requires id !in topicos
    requires !ExistsByTituloAndMensagem(topicos, t.titulo, t.mensagem)
    ensures ParesUnicos(topicos) ==> ParesUnicos(topicos[id := t])
  {
    if !ParesUnicos(topicos) {
      return;
    }
    var novos := topicos[id := t];
    forall j, k | j in novos && k in novos && j != k
      ensures novos[j].titulo != novos[k].titulo || novos[j].mensagem != novos[k].mensagem
    {
      if j == id {
        assert novos[k] == topicos[k];
      } else if k == id {
        assert novos[j] == topicos[j];
      }
    }
  }

  /** A freshly created topic is visible: its detail view shows the given title, message,
      author and course, status true and no replies, and the active listing holds it. */
  lemma DetalheAposCadastro(topicos: Topicos, proximoId: nat, titulo: string, mensagem: string,
                            autor: Usuario, curso: Curso, agora: int)
    requires Coerente(topicos, proximoId)
    ensures DetalharTopico(topicos[proximoId := NovoTopico(proximoId, titulo, mensagem, autor, curso, agora)], proximoId)
         == Some(DadosDetalhamentoTopico(proximoId, titulo, mensagem, ResumoUsuario(autor), ResumoCurso(curso), [], true))
    ensures ResumoAtivo(NovoTopico(proximoId, titulo, mensagem, autor, curso, agora))
         in GetAllTopicosAtivos(topicos[proximoId := NovoTopico(proximoId, titulo, mensagem, autor, curso, agora)],
                                proximoId + 1, None, None)
  {
    var novos := topicos[proximoId := NovoTopico(proximoId, titulo, mensagem, autor, curso, agora)];
    assert MapToDetalhamentoDto(novos[proximoId]).respostas == [];
    AtivosSoAtivos(novos, proximoId + 1, None, None);
  }

  /** `atualizar` changes the title and message of topic `id` only: its id, author, course,
      creation time, status and replies stay, no other topic changes and no id is added or
      removed. A soft-deleted topic is updated too and stays hidden. */
  lemma AtualizacaoSoTextos(topicos: Topicos, id: nat, titulo: string, mensagem: string)
    requires id in topicos
    ensures ComTextos(topicos, id, titulo, mensagem).Keys == topicos.Keys
    ensures ComTextos(topicos, id, titulo, mensagem)[id].titulo == titulo
    ensures ComTextos(topicos, id, titulo, mensagem)[id].mensagem == mensagem
    ensures ComTextos(topicos, id, titulo, mensagem)[id].id == topicos[id].id
    ensures ComTextos(topicos, id, titulo, mensagem)[id].autor == topicos[id].autor
    ensures ComTextos(topicos, id, titulo, mensagem)[id].curso == topicos[id].curso
    ensures ComTextos(topicos, id, titulo, mensagem)[id].dataCriacao == topicos[id].dataCriacao
    ensures ComTextos(topicos, id, titulo, mensagem)[id].status == topicos[id].status
    ensures ComTextos(topicos, id, titulo, mensagem)[id].respostas == topicos[id].respostas
    ensures forall k | k in topicos && k != id :: ComTextos(topicos, id, titulo, mensagem)[k] == topicos[k]
    ensures DetalharTopico(ComTextos(topicos, id, titulo, mensagem), id).Some? <==> topicos[id].status
  {
  }

  /** `atualizar` does not repeat the duplicate check of `cadastrar`: an update can give two
      topics the same (title, message) pair. */
  lemma AtualizacaoPodeDuplicarPar(u: Usuario, c: Curso)
    ensures ParesUnicos(map[0 := Topico(0, "a", "m", u, c, 0, true, []), 1 := Topico(1, "b", "m", u, c, 0, true, [])])
    ensures !ParesUnicos(ComTextos(map[0 := Topico(0, "a", "m", u, c, 0, true, []), 1 := Topico(1, "b", "m", u, c, 0, true, [])], 1, "a", "m"))
  {
    var antes := map[0 := Topico(0, "a", "m", u, c, 0, true, []), 1 := Topico(1, "b", "m", u, c, 0, true, [])];
    var depois := ComTextos(antes, 1, "a", "m");
    assert depois[0].titulo == depois[1].titulo && depois[0].mensagem == depois[1].mensagem;
  }

  /** Soft deletion is idempotent, keeps every id and changes only the status of `id`. */
  lemma DesativacaoIdempotente(topicos: Topicos, id: nat)
    requires id in topicos
    ensures Desativado(Desativado(topicos, id), id) == Desativado(topicos, id)
    ensures Desativado(topicos, id).Keys == topicos.Keys
    ensures Desativado(topicos, id)[id] == topicos[id].(status := false)
    ensures forall k | k in topicos && k != id :: Desativado(topicos, id)[k] == topicos[k]
  {
  }

  /** After a soft delete the topic is hidden from the detail view and from the active
      listing, while `findById` still finds it and the administrative listing still shows
      it, with status false. */
  lemma DesativacaoOculta(topicos: Topicos, proximoId: nat, id: nat, anoDe: int -> int)
    requires Coerente(topicos, proximoId) && id in topicos
    ensures DetalharTopico(Desativado(topicos, id), id) == None
    ensures FindById(Desativado(topicos, id), id) == Success(topicos[id].(status := false))
    ensures forall v | v in GetAllTopicosAtivos(Desativado(topicos, id), proximoId, None, None) :: v.id != id
    ensures ResumoListagem(topicos[id].(status := false))
         in GetAllTopicosOrderByDataCriacao(Desativado(topicos, id), proximoId, None, None, anoDe)
    ensures forall v | v in GetAllTopicosOrderByDataCriacao(Desativado(topicos, id), proximoId, None, None, anoDe)
                     && v.id == id :: !v.status
  {
    var depois := Desativado(topicos, id);
    AtivosSoAtivos(depois, proximoId, None, None);
    ListagemSemFiltro(depois, proximoId, None, None, anoDe);
  }

  /** The lifecycle end to end: a topic is created, shown with no replies, soft-deleted
      twice, then hidden from the detail view but kept in the store with status false. */
  method CenarioCicloDeVida(autor: Usuario, curso: Curso, agora: int)
  {
    var s := new TopicoService(map[autor.login := autor], map[curso.nome := curso], map[], 0);
    var dados := DadosCadastroTopico(Some("Intro"), Some("Pergunta"), curso.nome);
    assert !ExistsByTituloAndMensagem(s.topicos, "Intro", "Pergunta");
    var r := s.Cadastrar(dados, autor.login, agora);
    assert r == Success(0);
    assert DetalharTopico(s.topicos, 0).Some? && DetalharTopico(s.topicos, 0).value.respostas == [];
    var d := s.Cadastrar(dados, autor.login, agora);
    assert ExistsByTituloAndMensagem(s.topicos, "Intro", "Pergunta");
    assert d == Failure(IllegalArgument(MsgDuplicado, None));
    var e1 := s.Deletar(0);
    var e2 := s.Deletar(0);
    assert e1 == e2 == Success(());
    assert DetalharTopico(s.topicos, 0) == None;
    assert 0 in s.topicos && !s.topicos[0].status;
  }
}
