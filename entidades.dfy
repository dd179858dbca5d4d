/** The persistent entities: users, courses, replies and topics. */
module Entidades {
  import opened Comum

  /** A user of the identity directory. */
  datatype Usuario = Usuario(id: nat, nome: string, login: string)

  /** A course of the course directory. */
  datatype Curso = Curso(id: nat, nome: string, categoria: string)

  /** A reply. Its `id` stays `None` until the store assigns one; `topico` is the
      id of the topic the reply belongs to. */
  datatype Resposta = Resposta(
    id: Option<nat>,
    mensagem: string,
    dataCriacao: int,
    solucao: bool,
    autor: Usuario,
    topico: nat)

  /** A topic. `status` is the soft-delete flag: true while active, false once deleted.
      `dataCriacao` is a timestamp; `respostas` keeps the replies in order. */
  datatype Topico = Topico(
    id: nat,
    titulo: string,
    mensagem: string,
    autor: Usuario,
    curso: Curso,
    dataCriacao: int,
    status: bool,
    respostas: seq<Resposta>)
}
