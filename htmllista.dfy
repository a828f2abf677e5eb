// DLX\Ajudantes\HTMLLista (dlx/ajudantes/htmllista.ajudante.php): the HTML
// table of a record list. A static table of named list configurations holds
// the attributes of each part of the table (the table itself, the header,
// body and footer blocks, the rows, the caption and the cells); inicioLista
// selects one of them, and every later part or cell is rendered from the
// selected configuration, overridden by the caller's attributes.

module HTMLLista {
  import opened Wrappers
  import opened Text
  import opened Assoc
  import opened Vetores
  import Strings

  /** A list configuration: the attributes of each part of the table, by part name. */
  type ConfLista = seq<(string, Atributos)>

  /** The 'registros' configuration every list starts with. */
  function Registros(): ConfLista
  {
    [("lista", [("class", Some("lista-registros"))]),
     ("cabecalho", [("class", Some("bloco-titulos"))]),
     ("conteudo", [("class", Some("bloco-registros"))]),
     ("rodape", [("class", Some("bloco-rodape"))]),
     ("linhas", [("class", Some("registro"))]),
     ("subtitulo", [("class", Some("subtitulo"))]),
     ("celula", [("class", Some("dado"))])]
  }

  // ---------------------------------------------------------------- gerarIDTitulo

  predicate IsPontuacao(c: char) { c == '!' || c == '?' || c == '.' }

  /** preg_replace('~^(th\-|)~', 'th-', s): an existing 'th-' prefix is kept, otherwise one is added. */
  function PrefixoTh(s: string): string
  {
    if StartsWith(s, "th-") then s else "th-" + s
  }

  /** What follows the 'th-' prefix PrefixoTh leaves in front. */
  function SemPrefixo(s: string): string
  {
    if StartsWith(s, "th-") then s[3..] else s
  }

  /**
   * preg_replace('~\s+~', '-', s): every run of blanks becomes one '-'.
   * emBranco says the previous character was a blank already replaced.
   */
  function Hifenizar(s: string, emBranco: bool): (r: string)
    ensures forall i :: 0 <= i < |r| ==> !Strings.IsPcreSpace(r[i])
    ensures forall i :: 0 <= i < |r| ==> r[i] == '-' || r[i] in s
    ensures (forall i :: 0 <= i < |s| ==> !Strings.IsPcreSpace(s[i])) ==> r == s
    decreases |s|
  {
    if s == [] then []
    else if Strings.IsPcreSpace(s[0]) then (if emBranco then "" else "-") + Hifenizar(s[1..], true)
    else [s[0]] + Hifenizar(s[1..], false)
  }

  /** preg_replace('~[!?\.]+~', '', s): every '!', '?' and '.' is dropped. */
  function SemPontuacao(s: string): (r: string)
    ensures forall i :: 0 <= i < |r| ==> !IsPontuacao(r[i])
    ensures forall i :: 0 <= i < |r| ==> r[i] in s
    ensures (forall i :: 0 <= i < |s| ==> !IsPontuacao(s[i])) ==> r == s
    decreases |s|
  {
    if s == [] then []
    else if IsPontuacao(s[0]) then SemPontuacao(s[1..])
    else [s[0]] + SemPontuacao(s[1..])
  }

  /** gerarIDTitulo: accents removed, a 'th-' prefix, blanks as '-', no '!?.', lower case, in that order. */
  function GerarIDTitulo(id: string): string
  {
    Lower(SemPontuacao(Hifenizar(PrefixoTh(Strings.RemoverAcentos(id)), false)))
  }

  /** The characters an id of a title can hold. */
  predicate CharDeId(c: char)
  {
    !Strings.IsPcreSpace(c) && !IsPontuacao(c) && !IsUpperAscii(c) && !Strings.IsAccented(c)
  }

  predicate FormaDeId(s: string)
  {
    forall i :: 0 <= i < |s| ==> CharDeId(s[i])
  }

  lemma {:induction false} HifenizarSemBranco(p: string, x: string, b: bool)
    requires p != []
    requires forall i :: 0 <= i < |p| ==> !Strings.IsPcreSpace(p[i])
    ensures Hifenizar(p + x, b) == p + Hifenizar(x, false)
    decreases |p|
  {
    assert (p + x)[0] == p[0];
    assert (p + x)[1..] == p[1..] + x;
    if |p| > 1 {
      HifenizarSemBranco(p[1..], x, false);
    }
    ConsConcat(p, Hifenizar(x, false));
  }

  lemma {:induction false} SemPontuacaoAppend(x: string, y: string)
    ensures SemPontuacao(x + y) == SemPontuacao(x) + SemPontuacao(y)
    decreases |x|
  {
    if x != [] {
      assert (x + y)[0] == x[0];
      assert (x + y)[1..] == x[1..] + y;
      SemPontuacaoAppend(x[1..], y);
      var a, b := SemPontuacao(x[1..]), SemPontuacao(y);
      if IsPontuacao(x[0]) {
        assert SemPontuacao(x + y) == SemPontuacao(x[1..] + y);
        assert SemPontuacao(x) == a;
      } else {
        assert SemPontuacao(x + y) == [x[0]] + SemPontuacao(x[1..] + y);
        assert SemPontuacao(x) == [x[0]] + a;
        assert [x[0]] + (a + b) == ([x[0]] + a) + b;
      }
    } else {
      assert x + y == y;
    }
  }

  /** A character that is neither blank, punctuation nor accented stays so in lower case. */
  lemma LowerCharDeId(c: char)
    requires !Strings.IsPcreSpace(c) && !IsPontuacao(c) && !Strings.IsAccented(c)
    ensures CharDeId(LowerChar(c))
  {
  }

  /** The tail after 'th-' holds only id characters. */
  lemma CaudaDeId(s: string)
    requires Strings.NoAccents(s)
    ensures FormaDeId(Cauda(s))
  {
    var h := Hifenizar(s, false);
    var p := SemPontuacao(h);
    var l := Lower(p);
    forall i | 0 <= i < |l| ensures CharDeId(l[i]) {
      assert p[i] in h;
      var j :| 0 <= j < |h| && h[j] == p[i];
      if h[j] != '-' {
        assert h[j] in s;
        var m :| 0 <= m < |s| && s[m] == h[j];
        assert !Strings.IsAccented(s[m]);
      }
      LowerCharDeId(p[i]);
    }
  }

  /** PrefixoTh always leaves 'th-' in front of what SemPrefixo keeps. */
  lemma PrefixoThForma(s: string)
    ensures PrefixoTh(s) == "th-" + SemPrefixo(s)
  {
    if StartsWith(s, "th-") {
      assert s == s[..3] + s[3..];
    }
  }

  /** What gerarIDTitulo makes of the text after the prefix. */
  function Cauda(t: string): string
  {
    Lower(SemPontuacao(Hifenizar(t, false)))
  }

  /** A prefix made of id characters passes through unchanged. */
  lemma CaudaPrefixo(p: string, t: string)
    requires p != [] && FormaDeId(p)
    ensures Lower(SemPontuacao(Hifenizar(p + t, false))) == p + Cauda(t)
  {
    var h := Hifenizar(t, false);
    HifenizarSemBranco(p, t, false);
    SemPontuacaoAppend(p, h);
    LowerAppend(p, SemPontuacao(h));
    LowerOfLower(p);
  }

  lemma Th()
    ensures FormaDeId("th-")
  {
  }

  lemma CaudaTh(t: string)
    ensures Lower(SemPontuacao(Hifenizar("th-" + t, false))) == "th-" + Cauda(t)
  {
    Th();
    CaudaPrefixo("th-", t);
  }

  lemma SemPrefixoSemAcentos(s: string)
    requires Strings.NoAccents(s)
    ensures Strings.NoAccents(SemPrefixo(s))
  {
    var t := SemPrefixo(s);
    assert forall i :: 0 <= i < |t| ==> t[i] == s[i + (|s| - |t|)];
  }

  lemma FormaDeIdTh(c: string)
    requires FormaDeId(c)
    ensures FormaDeId("th-" + c)
  {
    assert forall i :: 3 <= i < |"th-" + c| ==> ("th-" + c)[i] == c[i - 3];
  }

  /**
   * The id is 'th-' followed by the cleaned text: one prefix, kept when already
   * there and added otherwise, and only id characters after it.
   */
  lemma GerarIDTituloForma(id: string)
    ensures GerarIDTitulo(id) == "th-" + Cauda(SemPrefixo(Strings.RemoverAcentos(id)))
    ensures FormaDeId(GerarIDTitulo(id))
    ensures StartsWith(GerarIDTitulo(id), "th-")
  {
    var s := Strings.RemoverAcentos(id);
    var t := SemPrefixo(s);
    PrefixoThForma(s);
    CaudaTh(t);
    Strings.RemoverAcentosSpec(id);
    SemPrefixoSemAcentos(s);
    CaudaDeId(t);
    FormaDeIdTh(Cauda(t));
  }

  /** An id already in that form is left as it is. */
  lemma GerarIDTituloFixo(s: string)
    requires StartsWith(s, "th-") && FormaDeId(s)
    ensures GerarIDTitulo(s) == s
  {
    Strings.RemoverAcentosSpec(s);
    assert Strings.RemoverAcentos(s) == s;
    assert Hifenizar(s, false) == s;
    assert SemPontuacao(s) == s;
    LowerOfLower(s);
  }

  /** gerarIDTitulo is idempotent: the 'th-' it adds is consumed by ^(th\-|) on a second pass. */
  lemma GerarIDTituloIdempotente(id: string)
    ensures GerarIDTitulo(GerarIDTitulo(id)) == GerarIDTitulo(id)
  {
    GerarIDTituloForma(id);
    GerarIDTituloFixo(GerarIDTitulo(id));
  }

  // ---------------------------------------------------------------- cells

  /** The attributes of celulaTitulo: the cell configuration, the caller's attributes, then the id. */
  function AtributosTitulo(celula: Atributos, id: string, params: Atributos): (r: Atributos)
    ensures Get(r, "id") == Some(Some(GerarIDTitulo(id)))
  {
    var b := PutAll(celula, params);
    GetPut(b, "id", Some(GerarIDTitulo(id)), "id");
    Put(b, "id", Some(GerarIDTitulo(id)))
  }

  /** Every attribute other than id comes from the caller, or else from the configuration. */
  lemma AtributosTituloOutros(celula: Atributos, id: string, params: Atributos, k: string)
    requires k != "id"
    ensures Get(AtributosTitulo(celula, id, params), k) ==
            match LastValue(params, k) case Some(v) => Some(v) case None => Get(celula, k)
  {
    GetPut(PutAll(celula, params), "id", Some(GerarIDTitulo(id)), k);
    GetPutAll(celula, params, k);
  }

  /**
   * The attributes of celulaComum: with a title, headers names the same id the
   * title cell got and data-th holds the title; without one, nothing is added.
   */
  function AtributosComum(celula: Atributos, th: Option<string>, params: Atributos): (r: Atributos)
    ensures th.None? ==> r == PutAll(celula, params)
    ensures th.Some? ==> Get(r, "headers") == Get(AtributosTitulo(celula, th.value, params), "id")
    ensures th.Some? ==> Get(r, "data-th") == Some(th)
  {
    var b := PutAll(celula, params);
    match th
    case None => b
    case Some(t) =>
      var h := Put(b, "headers", Some(GerarIDTitulo(t)));
      GetPut(b, "headers", Some(GerarIDTitulo(t)), "headers");
      GetPut(h, "data-th", Some(t), "headers");
      GetPut(h, "data-th", Some(t), "data-th");
      Put(h, "data-th", Some(t))
  }

  /** Apart from headers and data-th, a cell keeps the caller's attributes over the configuration's. */
  lemma AtributosComumOutros(celula: Atributos, th: Option<string>, params: Atributos, k: string)
    requires k != "headers" && k != "data-th"
    ensures Get(AtributosComum(celula, th, params), k) ==
            match LastValue(params, k) case Some(v) => Some(v) case None => Get(celula, k)
  {
    var b := PutAll(celula, params);
    GetPutAll(celula, params, k);
    if th.Some? {
      var h := Put(b, "headers", Some(GerarIDTitulo(th.value)));
      GetPut(b, "headers", Some(GerarIDTitulo(th.value)), k);
      GetPut(h, "data-th", th, k);
    }
  }

  // ---------------------------------------------------------------- the helper

  class HTMLLista {
    /** The static $conf_listas. */
    var confListas: seq<(string, ConfLista)>
    /** The static $conf_atual: null until inicioLista, and for an unknown name. */
    var confAtual: Option<ConfLista>

    constructor()
      ensures confListas == [("registros", Registros())]
      ensures confAtual == None
    {
      confListas := [("registros", Registros())];
      confAtual := None;
    }

    /** novaLista: registers (or replaces) a configuration; the selected one is untouched. */
    method NovaLista(nome: string, conf: ConfLista)
      modifies this
      ensures confListas == Put(old(confListas), nome, conf)
      ensures confAtual == old(confAtual)
      ensures Get(confListas, nome) == Some(conf)
    {
      GetPut(confListas, nome, conf, nome);
      confListas := Put(confListas, nome, conf);
    }

    /** The attributes of one part of the selected configuration; null when there is none. */
    function Parte(nome: string): (r: Option<Atributos>)
      reads this
      ensures r.Some? <==> confAtual.Some? && HasKey(confAtual.value, nome)
    {
      match confAtual
      case None => None
      case Some(c) => Get(c, nome)
    }

    /**
     * The opening tag of a part (inicioCabecalho: thead/cabecalho,
     * inicioConteudo: tbody/conteudo, inicioRodape: tfoot/rodape,
     * inicioLinha: tr/linhas), or None when the part is not configured.
     */
    function Abertura(tag: string, parte: string, params: Atributos): (r: Option<string>)
      reads this
      ensures r.Some? <==> Parte(parte).Some?
      ensures r.Some? ==> StartsWith(r.value, "<" + tag + " ")
    {
      match Parte(parte)
      case None => None
      case Some(a) =>
        var x := "<" + tag + " ";
        var y := Array2AtributosHTML(PutAll(a, params)) + ">";
        assert (x + y)[..|x|] == x;
        Some(x + y)
    }

    /**
     * inicioLista: the named configuration becomes the selected one for every
     * later call, and the table opens with its 'lista' attributes.
     */
    method InicioLista(conf: string, params: Atributos) returns (r: Option<string>)
      modifies this
      ensures confListas == old(confListas)
      ensures confAtual == Get(confListas, conf)
      ensures !HasKey(confListas, conf) ==> r.None?
      ensures r == Abertura("table", "lista", params)
    {
      confAtual := Get(confListas, conf);
      r := Abertura("table", "lista", params);
    }

    /** subtitulo: a caption with the configured attributes and the text. */
    function Subtitulo(texto: string, params: Atributos): (r: Option<string>)
      reads this
      ensures r.Some? <==> Parte("subtitulo").Some?
      ensures r.Some? ==> EndsWith(r.value, ">" + texto + "</caption>")
    {
      match Parte("subtitulo")
      case None => None
      case Some(a) =>
        var x := "<caption " + Array2AtributosHTML(PutAll(a, params));
        var y := ">" + texto + "</caption>";
        assert (x + y)[|x + y| - |y|..] == y;
        Some(x + y)
    }

    /** celulaTitulo: a th whose id is gerarIDTitulo(id). */
    function CelulaTitulo(id: string, texto: string, params: Atributos): (r: Option<string>)
      reads this
      ensures r.Some? <==> Parte("celula").Some?
      ensures r.Some? ==> StartsWith(r.value, "<th ") && EndsWith(r.value, ">" + texto + "</th>")
      ensures r.Some? ==> r.value == Elemento("<th ", AtributosTitulo(Parte("celula").value, id, params), texto, "</th>")
    {
      match Parte("celula")
      case None => None
      case Some(a) => Some(Elemento("<th ", AtributosTitulo(a, id, params), texto, "</th>"))
    }

    /** celulaComum: a td pointing at its title cell; a null text is written as ''. */
    function CelulaComum(th: Option<string>, texto: Option<string>, params: Atributos): (r: Option<string>)
      reads this
      ensures r.Some? <==> Parte("celula").Some?
      ensures r.Some? ==> StartsWith(r.value, "<td ") && EndsWith(r.value, ">" + texto.GetOr("") + "</td>")
      ensures r.Some? ==> r.value == Elemento("<td ", AtributosComum(Parte("celula").value, th, params), texto.GetOr(""), "</td>")
    {
      match Parte("celula")
      case None => None
      case Some(a) => Some(Elemento("<td ", AtributosComum(a, th, params), texto.GetOr(""), "</td>"))
    }
  }

}
