// DLX\Excecao\DLX (dlx/excecao/dlx.excecao.php): the framework's exception,
// carrying a message type (a CSS class) and the form in which the message is
// shown: JSON, an HTML paragraph or plain text.

module Excecao {
  import opened Wrappers
  import opened Text
  import opened Json
  import opened Filtros

  const MODOS: set<string> := {"json", "html", "texto"}

  /**
   * setComoExibir's filter: the lower-cased mode when it matches ~^(json|html|texto)$~.
   * PCRE's `$` also matches before a final newline, so "json\n" passes as well.
   */
  function ComoExibirValido(como: string): (r: Option<string>)
    ensures r.Some? ==> r.value == Lower(como)
    ensures Lower(como) in MODOS ==> r == Some(Lower(como))
    ensures r.Some? <==> (Lower(como) in MODOS ||
      (|como| >= 1 && como[|como| - 1] == '\n' && Lower(como)[..|como| - 1] in MODOS))
  {
    var t := Lower(como);
    if t in MODOS || (|t| >= 1 && t[|t| - 1] == '\n' && t[..|t| - 1] in MODOS) then Some(t) else None
  }

  /** The JSON object obterMensagem writes: the message and its type (null when it has none). */
  function MensagemJson(mensagem: string, tipo: Option<string>): string
  {
    "{\"mensagem\":" + TextoJson(mensagem) + ",\"tipo\":" + TalvezTextoJson(tipo) + "}"
  }

  /** The paragraph obterMensagem writes for html: the type is a class next to mostrar-msg. */
  function MensagemHtml(mensagem: string, tipo: Option<string>): string
  {
    "<p class=\"mostrar-msg " + (match tipo case Some(t) => t case None => "") + "\">" + mensagem + "</p>"
  }

  /** The value of the tipo key and the closing brace: null or a JSON string. */
  function LerTipoJson(r: string): Option<Option<string>>
  {
    if r == "null}" then Some(None)
    else match LerTexto(r)
      case Some((tipo, fim)) => if fim == "}" then Some(Some(tipo)) else None
      case None => None
  }

  /** A reader for the object of MensagemJson: the message and the type it carries. */
  function LerMensagemJson(t: string): Option<(string, Option<string>)>
  {
    if !StartsWith(t, "{\"mensagem\":") then None
    else match LerTexto(t[12..])
      case None => None
      case Some((m, r)) =>
        if !StartsWith(r, ",\"tipo\":") then None
        else match LerTipoJson(r[8..])
          case Some(tipo) => Some((m, tipo))
          case None => None
  }

  lemma LerTipoVolta(tipo: Option<string>)
    ensures LerTipoJson(TalvezTextoJson(tipo) + "}") == Some(tipo)
  {
    match tipo {
      case Some(x) =>
        TextoJsonVolta(x, "}");
        assert (TextoJson(x) + "}")[0] == '"';
      case None =>
    }
  }

  lemma LerMensagemPartes(mensagem: string, meio: string)
    requires StartsWith(meio, ",\"tipo\":")
    ensures LerMensagemJson("{\"mensagem\":" + TextoJson(mensagem) + meio) ==
      match LerTipoJson(meio[8..]) case Some(tipo) => Some((mensagem, tipo)) case None => None
  {
    var t := "{\"mensagem\":" + TextoJson(mensagem) + meio;
    assert t[12..] == TextoJson(mensagem) + meio;
    TextoJsonVolta(mensagem, meio);
  }

  /** The JSON form carries exactly the message and the type under the keys mensagem and tipo. */
  lemma MensagemJsonVolta(mensagem: string, tipo: Option<string>)
    ensures LerMensagemJson(MensagemJson(mensagem, tipo)) == Some((mensagem, tipo))
  {
    var cauda := TalvezTextoJson(tipo) + "}";
    var meio := ",\"tipo\":" + cauda;
    assert MensagemJson(mensagem, tipo) == "{\"mensagem\":" + TextoJson(mensagem) + meio;
    assert meio[8..] == cauda;
    LerTipoVolta(tipo);
    LerMensagemPartes(mensagem, meio);
  }

  /** The constructor's defaults go through their filters unchanged. */
  lemma PadroesFiltrados()
    ensures SanitizarOuNulo("-erro") == Some("-erro")
    ensures ComoExibirValido("json") == Some("json")
  {
    SanitizarTextoSimples("-erro");
    ModoJson("json");
  }

  lemma ModoJson(modo: string)
    requires modo == "json"
    ensures Lower(modo) == modo
  {
    LowerOfLower(modo);
  }

  class DLXExcecao {
    var mensagem: string
    var codigo: int
    var tipoMsg: Option<string>
    var comoExibir: Option<string>

    /** The exception with its message, code, type and display mode, both filtered by their setters. */
    constructor (mensagem: string, codigo: int, tipoMsg: string, comoExibir: string)
      ensures this.mensagem == mensagem && this.codigo == codigo
      ensures this.tipoMsg == SanitizarOuNulo(tipoMsg)
      ensures this.comoExibir == ComoExibirValido(comoExibir)
    {
      this.mensagem := mensagem;
      this.codigo := codigo;
      this.tipoMsg := SanitizarOuNulo(tipoMsg);
      this.comoExibir := ComoExibirValido(comoExibir);
    }

    /** The defaults: type '-erro' and mode 'json'. */
    constructor Padrao(mensagem: string, codigo: int)
      ensures this.mensagem == mensagem && this.codigo == codigo
      ensures tipoMsg == Some("-erro") && comoExibir == Some("json")
    {
      this.mensagem := mensagem;
      this.codigo := codigo;
      PadroesFiltrados();
      tipoMsg := SanitizarOuNulo("-erro");
      comoExibir := ComoExibirValido("json");
    }

    /** setTipoMsg: sanitized, and null when nothing is left. */
    method SetTipoMsg(tipo: string)
      modifies this
      ensures tipoMsg == SanitizarOuNulo(tipo)
      ensures mensagem == old(mensagem) && codigo == old(codigo) && comoExibir == old(comoExibir)
    {
      tipoMsg := SanitizarOuNulo(tipo);
    }

    /** setComoExibir: the lower-cased mode when it is json, html or texto, else null. */
    method SetComoExibir(como: string)
      modifies this
      ensures comoExibir == ComoExibirValido(como)
      ensures comoExibir.Some? ==> comoExibir.value == Lower(como)
      ensures mensagem == old(mensagem) && codigo == old(codigo) && tipoMsg == old(tipoMsg)
    {
      comoExibir := ComoExibirValido(como);
    }

    /**
     * obterMensagem: for json an object whose mensagem and tipo read back as the
     * message and the type; for html the paragraph; for texto the message itself;
     * for any other mode (null included) nothing.
     */
    function ObterMensagem(): (r: Option<string>)
      reads this
      ensures comoExibir == Some("json") ==> r.Some? && LerMensagemJson(r.value) == Some((mensagem, tipoMsg))
      ensures comoExibir == Some("html") ==> r == Some(MensagemHtml(mensagem, tipoMsg))
      ensures comoExibir == Some("texto") ==> r == Some(mensagem)
      ensures r.Some? <==> comoExibir.Some? && comoExibir.value in MODOS
    {
      match comoExibir
      case Some(modo) =>
        if modo == "json" then
          MensagemJsonVolta(mensagem, tipoMsg);
          Some(MensagemJson(mensagem, tipoMsg))
        else if modo == "html" then Some(MensagemHtml(mensagem, tipoMsg))
        else if modo == "texto" then Some(mensagem)
        else None
      case None => None
    }
  }

  /** A mode with a trailing newline passes the filter, and then obterMensagem gives nothing. */
  lemma ComoExibirComQuebra()
    ensures ComoExibirValido("JSON\n") == Some("json\n")
    ensures "json\n" !in MODOS
  {
    assert Lower("JSON\n") == "json\n";
    assert "json\n"[..4] == "json";
  }
}
