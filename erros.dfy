/** The exceptions the topic service throws, with the messages it gives them. */
module Erros {
  import opened Comum

  /** The underlying persistence error an exception may wrap. */
  datatype Causa = DataIntegrityViolation

  datatype Erro =
    /** `IllegalArgumentException`, optionally wrapping the store's error. */
    | IllegalArgument(mensagem: string, causa: Option<Causa>)
    /** `IllegalStateException`: the topic to change does not exist. */
    | IllegalState(mensagem: string)
    /** `ValidacaoException`: a business rule rejected the input. */
    | Validacao(mensagem: string)
    /** `EntityNotFoundException`: a topic looked up by id does not exist. */
    | EntityNotFound(mensagem: string)
    /** Raised by the identity directory when a login does not resolve. */
    | LoginNaoEncontrado(login: string)

  const MsgObrigatorios := "Título e mensagem são obrigatórios!!!"
  const MsgDuplicado := "Título, mensagem e curso já existem!!!"
  const MsgCursoDesconhecido := "Este curso não está na nossa lista de cadastrados..."
  const MsgAtualizarAusente := "Ops... Não encontramos este tópico"
  const MsgNulos := "Ops... A mensagem e título não podem ser nulos"
  const MsgAusente := "Não encontramos o tópico..."
}
