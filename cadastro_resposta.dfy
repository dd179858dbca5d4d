/** The request record for posting a reply, and the entity it builds. */
module CadastroResposta {
  import opened Comum
  import opened Entidades

  /** The client's reply request. `autorId` and `topicoId` are carried by the record
      but never read when the entity is built. */
  datatype DadosCadastroResposta = DadosCadastroResposta(
    mensagem: string,
    solucao: bool,
    autorId: nat,
    topicoId: nat)
  {
    /** Builds the reply entity: the text and solution flag come from the record, the
        author, topic and creation time from the arguments; the id is left for the store. */
    function ToEntity(autor: Usuario, topico: Topico, dataCriacao: int): (r: Resposta)
      ensures r.id == None
      ensures r.mensagem == mensagem && r.solucao == solucao
      ensures r.autor == autor && r.topico == topico.id
      ensures r.dataCriacao == dataCriacao
    {
      Resposta(None, mensagem, dataCriacao, solucao, autor, topico.id)
    }
  }

  /** The ids carried by the record play no part: two records that agree on text and
      solution flag build the same reply, whatever author and topic ids they name. */
  lemma ToEntityIgnoraIds(d: DadosCadastroResposta, e: DadosCadastroResposta,
                          autor: Usuario, topico: Topico, dataCriacao: int)
    requires d.mensagem == e.mensagem && d.solucao == e.solucao
    ensures d.ToEntity(autor, topico, dataCriacao) == e.ToEntity(autor, topico, dataCriacao)
  {
  }
}
