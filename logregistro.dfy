// Comum\Modelos\LogRegistro (aplicativos/comum/modelos/logregistro.modelo.php):
// the log entry of a change to a record. Every setter filters its input, and
// the hook that runs before saving fills in where the change came from.

module LogRegistro {
  import opened Wrappers
  import opened Text
  import opened Values
  import opened Filtros

  const DESCONHECIDO: string := "Desconhecido"

  /** A letter of an action: A (added), E (edited) or X (deleted). */
  predicate LetraAcao(c: char)
  {
    c == 'A' || c == 'E' || c == 'X'
  }

  /**
   * setAcao's filter ~(A|E|X)~ with FILTER_NULL_ON_FAILURE: the pattern is not
   * anchored, so any text holding one of the letters somewhere passes whole.
   */
  function AcaoValida(acao: string): (r: Option<string>)
    ensures r.Some? <==> exists i :: 0 <= i < |acao| && LetraAcao(acao[i])
    ensures r.Some? ==> r.value == acao
  {
    if 'A' in acao || 'E' in acao || 'X' in acao then Some(acao) else None
  }

  /** Because the pattern is unanchored, text around a valid action keeps it valid. */
  lemma AcaoSemAncora(antes: string, acao: string, depois: string)
    requires AcaoValida(acao).Some?
    ensures AcaoValida(antes + acao + depois) == Some(antes + acao + depois)
  {
    var i :| 0 <= i < |acao| && LetraAcao(acao[i]);
    assert (antes + acao + depois)[|antes| + i] == acao[i];
  }

  /** setUsuario's FILTER_VALIDATE_INT with min_range 1: an integer of at least 1, else null. */
  function UsuarioValido(usuario: Value): (r: Option<int>)
    ensures r.Some? <==> ValidarInt(usuario).Some? && ValidarInt(usuario).value >= 1
    ensures r.Some? ==> r.value >= 1 && r.value == ValidarInt(usuario).value
  {
    match ValidarInt(usuario)
    case Some(n) => if n >= 1 then Some(n) else None
    case None => None
  }

  /**
   * An id given as an integer is kept exactly when it is at least 1; given as
   * its decimal text, exactly when it is also at most PHP_INT_MAX.
   */
  lemma UsuarioInteiro(n: int)
    ensures UsuarioValido(Int(n)) == (if n >= 1 then Some(n) else None)
    ensures UsuarioValido(Str(IntText(n))) == (if 1 <= n <= PHP_INT_MAX then Some(n) else None)
  {
    ValidarIntTexto(n);
  }

  /** setNome: an empty name ("" or "0") becomes 'Desconhecido'; the name is then sanitized, and null when nothing is left. */
  function NomeFiltrado(nome: string): (r: Option<string>)
    ensures nome == "" || nome == "0" ==> r == Some(DESCONHECIDO)
    ensures r.Some? ==> '"' !in r.value && '\'' !in r.value && r.value != ""
    ensures nome != "" && nome != "0" ==> r == SanitizarOuNulo(nome)
  {
    SanitizarTextoSimples(DESCONHECIDO);
    SanitizarIdempotente(nome);
    SanitizarOuNulo(if nome == "" || nome == "0" then DESCONHECIDO else nome)
  }

  /** A name without tags or quotes is stored as it is. */
  lemma NomeSimples(nome: string)
    requires nome != "" && nome != "0"
    requires '<' !in nome && '"' !in nome && '\'' !in nome
    ensures NomeFiltrado(nome) == Some(nome)
  {
    SanitizarTextoSimples(nome);
  }

  class LogRegistro {
    var tabela: Option<string>
    var regpk: Option<string>
    var acao: Option<string>
    var data: string
    var usuario: Option<int>
    var nome: Option<string>
    var ip: Option<string>
    var agente: string

    /** A new log entry: nothing filled in, and the user name 'Desconhecido'. */
    constructor ()
      ensures tabela.None? && regpk.None? && acao.None? && usuario.None? && ip.None?
      ensures data == "" && agente == ""
      ensures nome == Some(DESCONHECIDO)
    {
      tabela, regpk, acao, data := None, None, None, "";
      usuario, ip, agente := None, None, "";
      nome := Some(DESCONHECIDO);
    }

    /** setTabela: sanitized, and null when nothing is left. */
    method SetTabela(t: string)
      modifies this
      ensures tabela == SanitizarOuNulo(t)
      ensures t == "" ==> tabela.None?
      ensures regpk == old(regpk) && acao == old(acao) && data == old(data) && usuario == old(usuario)
      ensures nome == old(nome) && ip == old(ip) && agente == old(agente)
    {
      tabela := SanitizarOuNulo(t);
    }

    /** setRegpk: sanitized, and null when nothing is left. */
    method SetRegpk(pk: string)
      modifies this
      ensures regpk == SanitizarOuNulo(pk)
      ensures pk == "" ==> regpk.None?
      ensures tabela == old(tabela) && acao == old(acao) && data == old(data) && usuario == old(usuario)
      ensures nome == old(nome) && ip == old(ip) && agente == old(agente)
    {
      regpk := SanitizarOuNulo(pk);
    }

    /** setAcao: the text when it holds A, E or X anywhere, else null. */
    method SetAcao(a: string)
      modifies this
      ensures acao == AcaoValida(a)
      ensures tabela == old(tabela) && regpk == old(regpk) && data == old(data) && usuario == old(usuario)
      ensures nome == old(nome) && ip == old(ip) && agente == old(agente)
    {
      acao := AcaoValida(a);
    }

    /** setData: stored as given. */
    method SetData(d: string)
      modifies this
      ensures data == d
      ensures tabela == old(tabela) && regpk == old(regpk) && acao == old(acao) && usuario == old(usuario)
      ensures nome == old(nome) && ip == old(ip) && agente == old(agente)
    {
      data := d;
    }

    /** setUsuario: an integer of at least 1, else null. */
    method SetUsuario(u: Value)
      modifies this
      ensures usuario == UsuarioValido(u)
      ensures tabela == old(tabela) && regpk == old(regpk) && acao == old(acao) && data == old(data)
      ensures nome == old(nome) && ip == old(ip) && agente == old(agente)
    {
      usuario := UsuarioValido(u);
    }

    /** setNome: 'Desconhecido' for an empty name, then sanitized. */
    method SetNome(n: string)
      modifies this
      ensures nome == NomeFiltrado(n)
      ensures tabela == old(tabela) && regpk == old(regpk) && acao == old(acao) && data == old(data)
      ensures usuario == old(usuario) && ip == old(ip) && agente == old(agente)
    {
      nome := NomeFiltrado(n);
    }

    /** setIp: the address when it is valid, else null. */
    method SetIp(i: string)
      modifies this
      ensures ip == ValidarIp(i)
      ensures tabela == old(tabela) && regpk == old(regpk) && acao == old(acao) && data == old(data)
      ensures usuario == old(usuario) && nome == old(nome) && agente == old(agente)
    {
      ip := ValidarIp(i);
    }

    /** setAgente: FILTER_DEFAULT keeps the text as it is. */
    method SetAgente(a: string)
      modifies this
      ensures agente == a
      ensures tabela == old(tabela) && regpk == old(regpk) && acao == old(acao) && data == old(data)
      ensures usuario == old(usuario) && nome == old(nome) && ip == old(ip)
    {
      agente := a;
    }

    /**
     * The handler the constructor registers to run before salvar: the client's
     * address and agent, the current date, and, when a session is active, the
     * id and name of its user. The request, the clock and the session are the
     * parameters; sessao is None when no session is active.
     */
    method AntesSalvar(remoteAddr: string, userAgent: string, agora: string, sessao: Option<(Value, string)>)
      modifies this
      ensures ip == ValidarIp(remoteAddr) && agente == userAgent && data == agora
      ensures sessao.Some? ==> usuario == UsuarioValido(sessao.value.0) && nome == NomeFiltrado(sessao.value.1)
      ensures sessao.None? ==> usuario == old(usuario) && nome == old(nome)
      ensures tabela == old(tabela) && regpk == old(regpk) && acao == old(acao)
    {
      SetIp(remoteAddr);
      SetAgente(userAgent);
      SetData(agora);
      if sessao.Some? {
        SetUsuario(sessao.value.0);
        SetNome(sessao.value.1);
      }
    }
  }
}
