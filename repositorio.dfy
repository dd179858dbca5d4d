/** The topic store as a value, and the queries the topic repository offers. The
    repository's queries are derived from their method names: an existence check on
    (title, message), a listing of active topics, a listing ordered by creation time and
    a listing filtered by course name and creation year. */
module TopicoRepositorio {
  import opened Entidades

  /** The stored topics, by id. */
  type Topicos = map<nat, Topico>

  /** Every topic is stored under its own id. */
  predicate IdsCoerentes(topicos: Topicos)
  {
    forall k | k in topicos :: topicos[k].id == k
  }

  /** Every id in use lies below the next id the store will assign. */
  predicate AbaixoDe(topicos: Topicos, proximoId: nat)
  {
    forall k | k in topicos :: k < proximoId
  }

  /** Every reply of a topic is saved: it has the id the store assigned to it, and it
      refers back to that topic. */
  predicate RespostasDoDono(topicos: Topicos)
  {
    forall k, i | k in topicos && 0 <= i < |topicos[k].respostas| ::
      topicos[k].respostas[i].id.Some? && topicos[k].respostas[i].topico == k
  }

  /** The store's invariant. */
  predicate Coerente(topicos: Topicos, proximoId: nat)
  {
    IdsCoerentes(topicos) && AbaixoDe(topicos, proximoId) && RespostasDoDono(topicos)
  }

  /** `t` is the topic stored under its id. */
  predicate Armazenado(topicos: Topicos, t: Topico)
  {
    t.id in topicos && topicos[t.id] == t
  }

  /** `existsByTituloAndMensagem`: some stored topic, of any status and any course, has
      this title and this message. */
  predicate ExistsByTituloAndMensagem(topicos: Topicos, titulo: string, mensagem: string)
    ensures ExistsByTituloAndMensagem(topicos, titulo, mensagem)
        <==> exists t | t in topicos.Values :: t.titulo == titulo && t.mensagem == mensagem
  {
    exists k | k in topicos :: topicos[k].titulo == titulo && topicos[k].mensagem == mensagem
  }

  /** No two stored topics share a (title, message) pair. */
  predicate ParesUnicos(topicos: Topicos)
  {
    forall j, k | j in topicos && k in topicos && j != k ::
      topicos[j].titulo != topicos[k].titulo || topicos[j].mensagem != topicos[k].mensagem
  }

  /** Ids strictly increase along `s`; in particular no topic appears twice. */
  predicate IdsCrescentes(s: seq<Topico>)
  {
    forall i, j | 0 <= i < j < |s| :: s[i].id < s[j].id
  }

  /** Every stored topic with an id below `n`, of any status, in ascending id order. */
  function FindAll(topicos: Topicos, n: nat): (r: seq<Topico>)
    requires IdsCoerentes(topicos)
    ensures forall t :: t in r <==> t.id < n && Armazenado(topicos, t)
    ensures IdsCrescentes(r)
  {
    if n == 0 then []
    else FindAll(topicos, n - 1) + (if n - 1 in topicos then [topicos[n - 1]] else [])
  }

  /** The topics of `s` that satisfy `p`, in their order in `s`. */
  function Filtrar(s: seq<Topico>, p: Topico -> bool): (r: seq<Topico>)
    ensures forall t :: t in r <==> t in s && p(t)
    ensures IdsCrescentes(s) ==> IdsCrescentes(r)
  {
    if s == [] then []
    else if p(s[0]) then
      assert IdsCrescentes(s) ==> forall x | x in s[1..] :: s[0].id < x.id;
      [s[0]] + Filtrar(s[1..], p)
    else Filtrar(s[1..], p)
  }

  /** `findByStatusTrue`: the active topics. */
  function FindByStatusTrue(topicos: Topicos, n: nat): (r: seq<Topico>)
    requires IdsCoerentes(topicos)
    ensures forall t :: t in r <==> t.id < n && Armazenado(topicos, t) && t.status
    ensures IdsCrescentes(r)
  {
    Filtrar(FindAll(topicos, n), (t: Topico) => t.status)
  }

  /** `findByCursoNomeAndAno`: topics of any status whose course has this name and whose
      creation time falls in this year; `anoDe` gives the calendar year of a timestamp. */
  function FindByCursoNomeAndAno(topicos: Topicos, n: nat, cursoNome: string, ano: int,
                                 anoDe: int -> int): (r: seq<Topico>)
    requires IdsCoerentes(topicos)
    ensures forall t :: t in r <==>
      t.id < n && Armazenado(topicos, t) && t.curso.nome == cursoNome && anoDe(t.dataCriacao) == ano
    ensures IdsCrescentes(r)
  {
    Filtrar(FindAll(topicos, n), (t: Topico) => t.curso.nome == cursoNome && anoDe(t.dataCriacao) == ano)
  }

  /** Creation times never decrease along `s`. */
  predicate OrdenadoPorData(s: seq<Topico>)
  {
    forall i, j | 0 <= i < j < |s| :: s[i].dataCriacao <= s[j].dataCriacao
  }

  /** The first topic of a sorted sequence was created no later than any other. */
  lemma PrimeiroMaisAntigo(s: seq<Topico>)
    requires OrdenadoPorData(s) && s != []
    ensures forall x | x in s :: s[0].dataCriacao <= x.dataCriacao
  {
  }

  /** A topic created no later than every topic of a sorted sequence may go in front of it. */
  lemma OrdenadoNaFrente(a: Topico, s: seq<Topico>)
    requires OrdenadoPorData(s)
    requires forall x | x in s :: a.dataCriacao <= x.dataCriacao
    ensures OrdenadoPorData([a] + s)
  {
  }

  /** Every topic of `r` is `t` or a topic of `s` when `r` holds exactly `s` and `t`. */
  lemma MembrosDoMultiset(r: seq<Topico>, s: seq<Topico>, t: Topico)
    requires multiset(r) == multiset(s) + multiset{t}
    ensures forall x | x in r :: x == t || x in s
  {
    forall x | x in r
      ensures x == t || x in s
    {
      assert x in multiset(r);
    }
  }

  /** Inserts `t` into `s` before the first topic created no earlier than it. */
  function InserirPorData(t: Topico, s: seq<Topico>): (r: seq<Topico>)
    requires OrdenadoPorData(s)
    ensures OrdenadoPorData(r)
    ensures multiset(r) == multiset(s) + multiset{t}
  {
    if s == [] then [t]
    else if t.dataCriacao <= s[0].dataCriacao then
      PrimeiroMaisAntigo(s);
      OrdenadoNaFrente(t, s);
      [t] + s
    else
      var resto := InserirPorData(t, s[1..]);
      PrimeiroMaisAntigo(s);
      MembrosDoMultiset(resto, s[1..], t);
      assert forall x | x in s[1..] :: x in s;
      OrdenadoNaFrente(s[0], resto);
      assert s == [s[0]] + s[1..];
      [s[0]] + resto
  }

  /** Sorts `s` by ascending creation time, as a rearrangement of `s`. */
  function OrdenarPorData(s: seq<Topico>): (r: seq<Topico>)
    ensures OrdenadoPorData(r)
    ensures multiset(r) == multiset(s)
  {
    if s == [] then []
    else
      assert s == [s[0]] + s[1..];
      InserirPorData(s[0], OrdenarPorData(s[1..]))
  }

  /** `findAllByOrderByDataCriacaoAsc`: every topic, of any status, by ascending creation time. */
  function FindAllByOrderByDataCriacaoAsc(topicos: Topicos, n: nat): (r: seq<Topico>)
    requires IdsCoerentes(topicos)
    ensures OrdenadoPorData(r)
    ensures multiset(r) == multiset(FindAll(topicos, n))
    ensures forall t :: t in r <==> t.id < n && Armazenado(topicos, t)
  {
    var todos := FindAll(topicos, n);
    var r := OrdenarPorData(todos);
    assert forall t :: t in r <==> t in multiset(todos);
    r
  }
}
