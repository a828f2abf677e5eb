// DLX\Ajudantes\HTMLForm (dlx/ajudantes/htmlform.ajudante.php): form fields
// rendered from named configurations. A static table maps each kind of input
// to its default attributes and another one each kind of button; every
// field merges the caller's attributes over its configuration, then takes
// the field's name and an id made of the configured prefix and the caller's
// id, and is preceded by an optional label and hint.

module HTMLForm {
  import opened Wrappers
  import opened Text
  import opened Assoc
  import opened Vetores
  import Strings
  import Values

  /** A table of configurations: a name and its default attributes. */
  type Tabela = seq<(string, Atributos)>

  /**
   * The texts the helper shows, already translated (its TXT_* constants and
   * the 'Nenhuma opção adicionada' of comboSelect).
   */
  datatype Textos = Textos(
    validacaoUpload: string,
    salvandoRegistro: string,
    enviandoEmail: string,
    acessando: string,
    salvandoArquivo: string,
    nenhumaOpcao: string)

  function Campo(tipo: Option<string>, id: string, classe: string): Atributos
  {
    (if tipo.Some? then [("type", tipo)] else []) +
    [("name", Some("")), ("id", Some(id)), ("class", Some("form-controle " + classe))]
  }

  function Numero(id: string, classe: string, extra: Atributos): Atributos
  {
    [("type", Some("number")), ("name", Some("")), ("id", Some(id))] + extra + [("class", Some("form-controle " + classe))]
  }

  /** The input configurations the helper starts with. */
  function InputsPadrao(): Tabela
  {
    [("arquivo", Campo(Some("file"), "arq-", "-arquivo")),
     ("busca", Campo(Some("search"), "bus-", "-busca")),
     ("cor", Campo(Some("color"), "cor-", "-cor")),
     ("data", Campo(Some("date"), "dt-", "-data")),
     ("hora", Campo(Some("time"), "hr-", "-data")),
     ("data-hora", Campo(Some("datetime-local"), "dh-", "-data")),
     ("email", Campo(Some("email"), "mail-", "-email")),
     ("numero", Campo(Some("number"), "num-", "-numero")),
     ("range", Campo(Some("range"), "num-", "-range")),
     ("senha", Campo(Some("password"), "sen-", "-senha")),
     ("texto", Campo(Some("text"), "txt-", "-texto")),
     ("url", Campo(Some("url"), "txt-", "-url")),
     ("select", Campo(None, "sel-", "-select")),
     ("textarea", Campo(None, "txt-", "-textarea")),
     ("moeda", Numero("num-", "-moeda", [("step", Some("0.01")), ("placeholder", Some("R$ 100,00"))])),
     ("dia", Numero("num-", "-numero", [("min", Some("1")), ("max", Some("31"))])),
     ("mes", Numero("num-", "-numero", [("min", Some("1")), ("max", Some("12"))])),
     ("ano", Numero("num-", "-numero", [("min", Some("1111")), ("max", Some("9999"))])),
     ("chk-sim-nao", Campo(Some("checkbox"), "chk-", "-chk-sim-nao"))]
  }

  function Submeter(classe: string, msg: string): Atributos
  {
    [("type", Some("submit")), ("class", Some("botao " + classe)), ("data-ajax", Some("1")), ("data-ajax-msg", Some(msg))]
  }

  /** The button configurations the helper starts with ('data-ajax' => true is written as 1). */
  function BotoesPadrao(t: Textos): Tabela
  {
    [("salvar", Submeter("-salvar", t.salvandoRegistro)),
     ("cancelar", [("type", Some("reset")), ("class", Some("botao -cancelar"))]),
     ("enviar-email", Submeter("-enviar", t.enviandoEmail)),
     ("entrar", Submeter("-entrar", t.acessando)),
     ("upload", Submeter("-upload", t.salvandoArquivo))]
  }

  // ---------------------------------------------------------- label and hint

  /** The start of a label pointing at the field with this id. */
  function RotuloPara(id: string): string
  {
    "<label for=\"" + id + "\""
  }

  /** htmlRotulo: a label for the field; nothing without a text. */
  function HtmlRotulo(id: string, texto: Option<string>): (r: string)
    ensures texto.None? <==> r == ""
    ensures texto.Some? ==> StartsWith(r, RotuloPara(id)) && EndsWith(r, ">" + texto.value + ":</label>")
  {
    match texto
    case None => ""
    case Some(t) =>
      var x := RotuloPara(id);
      var y := ">" + t + ":</label>";
      var r := x + " class=\"form-rotulo\"" + y;
      assert r[..|x|] == x;
      assert r[|r| - |y|..] == y;
      r
  }

  /** htmlDica: the hint's span; nothing without a text. */
  function HtmlDica(texto: Option<string>): (r: string)
    ensures texto.None? <==> r == ""
    ensures texto.Some? ==> StartsWith(r, "<span class=\"form-dica\">") && EndsWith(r, texto.value + "</span>")
  {
    match texto
    case None => ""
    case Some(t) =>
      var x := "<span class=\"form-dica\">";
      var y := t + "</span>";
      var r := x + y;
      assert r[..|x|] == x;
      assert r[|r| - |y|..] == y;
      r
  }

  /** The field's markup after its label and its hint. */
  function Montado(id: string, rotulo: Option<string>, dica: Option<string>, campo: string): (r: string)
    ensures EndsWith(r, campo)
    ensures rotulo.Some? ==> StartsWith(r, RotuloPara(id))
    ensures rotulo.None? && dica.None? ==> r == campo
  {
    var x := HtmlRotulo(id, rotulo) + HtmlDica(dica);
    var r := x + campo;
    assert r[|r| - |campo|..] == campo;
    assert rotulo.Some? ==> r[..|RotuloPara(id)|] == x[..|RotuloPara(id)|];
    r
  }

  /** What follows a text keeps its beginning, and its end gets longer. */
  lemma Acrescentado(m: string, p: string, suf: string)
    ensures StartsWith(m, p) ==> StartsWith(m + suf, p)
    ensures EndsWith(m, p) ==> EndsWith(m + suf, p + suf)
  {
    if StartsWith(m, p) {
      assert (m + suf)[..|p|] == m[..|p|];
    }
    if EndsWith(m, p) {
      assert (m + suf)[|m + suf| - |p + suf|..] == m[|m| - |p|..] + suf;
    }
  }

  lemma Precedido(x: string, y: string)
    ensures EndsWith(x + y, y)
    ensures x == "" ==> x + y == y
  {
    assert (x + y)[|x|..] == y;
  }

  lemma EndsWithTrans(r: string, c: string, s: string)
    requires EndsWith(r, c) && EndsWith(c, s)
    ensures EndsWith(r, s)
  {
    assert r[|r| - |s|..] == r[|r| - |c|..][|c| - |s|..];
  }

  // ---------------------------------------------------------- attributes

  /** The value of an attribute read as text: a missing attribute and a null one are both ''. */
  function TextoDe(v: Option<Option<string>>): string
  {
    match v
    case Some(Some(s)) => s
    case _ => ""
  }

  /** The id a field gets: the configured prefix (or the caller's 'id') followed by the field's id. */
  function IdCampo(base: Atributos, params: Atributos, id: string): string
  {
    TextoDe(Get(PutAll(base, params), "id")) + id
  }

  /** The attributes every field starts from: configuration, caller's attributes, then name and id. */
  function AtributosCampo(base: Atributos, params: Atributos, nome: string, id: string): Atributos
  {
    Put(Put(PutAll(base, params), "name", Some(nome)), "id", Some(IdCampo(base, params, id)))
  }

  /**
   * A field is named by the caller, its id is the prefix followed by the
   * caller's id, and every other attribute is the caller's, or else the
   * configuration's.
   */
  lemma AtributosCampoGet(base: Atributos, params: Atributos, nome: string, id: string, k: string)
    ensures Get(AtributosCampo(base, params, nome, id), k) ==
      if k == "name" then Some(Some(nome))
      else if k == "id" then Some(Some(IdCampo(base, params, id)))
      else match LastValue(params, k) case Some(v) => Some(v) case None => Get(base, k)
  {
    var c := PutAll(base, params);
    GetPutAll(base, params, k);
    GetPut(c, "name", Some(nome), k);
    GetPut(Put(c, "name", Some(nome)), "id", Some(IdCampo(base, params, id)), k);
  }

  /** Unless the caller gives an id, the field's id is the configured prefix followed by the caller's id. */
  lemma IdCampoPrefixo(base: Atributos, params: Atributos, prefixo: string, id: string)
    requires Get(base, "id") == Some(Some(prefixo))
    requires forall i :: 0 <= i < |params| ==> params[i].0 != "id"
    ensures IdCampo(base, params, id) == prefixo + id
  {
    GetPutAll(base, params, "id");
  }

  /** The attributes of campoGeral: a given value is set, a null one leaves 'value' alone. */
  function AtributosGeral(base: Atributos, params: Atributos, nome: string, id: string, valor: Option<string>): Atributos
  {
    var c := AtributosCampo(base, params, nome, id);
    if valor.Some? then Put(c, "value", valor) else c
  }

  lemma AtributosGeralGet(base: Atributos, params: Atributos, nome: string, id: string, valor: Option<string>, k: string)
    ensures Get(AtributosGeral(base, params, nome, id, valor), k) ==
      if k == "value" && valor.Some? then Some(valor) else Get(AtributosCampo(base, params, nome, id), k)
  {
    if valor.Some? {
      GetPut(AtributosCampo(base, params, nome, id), "value", valor, k);
    }
  }

  /** The attributes of caixaTexto: the id is always 'txt-' followed by the caller's id. */
  function AtributosCaixa(base: Atributos, params: Atributos, nome: string, id: string): Atributos
  {
    Put(Put(PutAll(base, params), "name", Some(nome)), "id", Some("txt-" + id))
  }

  lemma AtributosCaixaGet(base: Atributos, params: Atributos, nome: string, id: string, k: string)
    ensures Get(AtributosCaixa(base, params, nome, id), k) ==
      if k == "name" then Some(Some(nome))
      else if k == "id" then Some(Some("txt-" + id))
      else match LastValue(params, k) case Some(v) => Some(v) case None => Get(base, k)
  {
    var c := PutAll(base, params);
    GetPutAll(base, params, k);
    GetPut(c, "name", Some(nome), k);
    GetPut(Put(c, "name", Some(nome)), "id", Some("txt-" + id), k);
  }

  /** The attributes of chkSimNao: 'checked' is added when the box is selected. */
  function AtributosChk(base: Atributos, params: Atributos, nome: string, id: string, selecionado: bool): Atributos
  {
    var c := AtributosCampo(base, params, nome, id);
    if selecionado then Put(c, "checked", Some("checked")) else c
  }

  /** A selected box is checked; otherwise 'checked' is whatever the caller or the configuration says. */
  lemma AtributosChkGet(base: Atributos, params: Atributos, nome: string, id: string, selecionado: bool, k: string)
    ensures Get(AtributosChk(base, params, nome, id, selecionado), k) ==
      if k == "checked" && selecionado then Some(Some("checked")) else Get(AtributosCampo(base, params, nome, id), k)
  {
    if selecionado {
      GetPut(AtributosCampo(base, params, nome, id), "checked", Some("checked"), k);
    }
  }

  /** The attributes of arquivoUpload: the validation attributes come only with extensions. */
  function AtributosArquivo(base: Atributos, params: Atributos, nome: string, id: string, exts: Option<string>, msg: string): Atributos
  {
    var c := AtributosCampo(base, params, nome, id);
    if exts.Some? then Put(Put(Put(c, "data-vld-func", Some("validaUpload")), "data-vld-msg", Some(msg)), "data-vld-exts", exts)
    else c
  }

  lemma AtributosArquivoGet(base: Atributos, params: Atributos, nome: string, id: string, exts: Option<string>, msg: string, k: string)
    ensures Get(AtributosArquivo(base, params, nome, id, exts, msg), k) ==
      if exts.Some? && k == "data-vld-func" then Some(Some("validaUpload"))
      else if exts.Some? && k == "data-vld-msg" then Some(Some(msg))
      else if exts.Some? && k == "data-vld-exts" then Some(exts)
      else Get(AtributosCampo(base, params, nome, id), k)
  {
    if exts.Some? {
      var c := AtributosCampo(base, params, nome, id);
      var c1 := Put(c, "data-vld-func", Some("validaUpload"));
      var c2 := Put(c1, "data-vld-msg", Some(msg));
      GetPut(c, "data-vld-func", Some("validaUpload"), k);
      GetPut(c1, "data-vld-msg", Some(msg), k);
      GetPut(c2, "data-vld-exts", exts, k);
    }
  }

  /** '<input attributes/>'. */
  function Input(a: Atributos): (r: string)
    ensures StartsWith(r, "<input ") && EndsWith(r, "/>")
  {
    var x := "<input ";
    var y := "/>";
    var r := x + Array2AtributosHTML(a) + y;
    assert r[..|x|] == x;
    assert r[|r| - |y|..] == y;
    r
  }

  // ---------------------------------------------------------- comboSelect

  /** One option of a select: its VALOR and its TEXTO. */
  datatype Opcao = Opcao(valor: string, texto: string)

  /** The options given to comboSelect: plain values, or VALOR/TEXTO arrays (Vetores::arrayMulti). */
  datatype Opcoes = Planas(valores: seq<string>) | Compostas(opcoes: seq<Opcao>)

  function Tamanho(o: Opcoes): nat
  {
    match o
    case Planas(vs) => |vs|
    case Compostas(os) => |os|
  }

  /** The option comboSelect starts with by default; the text is not translated. */
  function OpcaoInicial(): seq<Opcao>
  {
    [Opcao("", "Selecione uma opção")]
  }

  /**
   * The options listed: the initial ones followed by the given ones, a plain
   * value becoming an option whose text is the value itself; with no options,
   * the single 'no option' entry with an empty value.
   */
  function ListaOpcoes(o: Opcoes, inicial: seq<Opcao>, nenhuma: string): (r: seq<Opcao>)
    ensures Tamanho(o) == 0 ==> r == [Opcao("", nenhuma)]
    ensures Tamanho(o) > 0 ==> |r| == |inicial| + Tamanho(o) && r[..|inicial|] == inicial
    ensures Tamanho(o) > 0 && o.Planas? ==> forall i :: 0 <= i < |o.valores| ==> r[|inicial| + i] == Opcao(o.valores[i], o.valores[i])
    ensures Tamanho(o) > 0 && o.Compostas? ==> r[|inicial|..] == o.opcoes
  {
    if Tamanho(o) == 0 then [Opcao("", nenhuma)]
    else
      var dadas := match o
        case Planas(vs) => seq(|vs|, i requires 0 <= i < |vs| => Opcao(vs[i], vs[i]))
        case Compostas(os) => os;
      var r := inicial + dadas;
      assert r[..|inicial|] == inicial && r[|inicial|..] == dadas;
      r
  }

  function AbreOpcao(valor: string): string
  {
    "<option value=\"" + valor + "\""
  }

  function FechaOpcao(texto: string): string
  {
    ">" + texto + "</option>"
  }

  /** One option: marked ' SELECTED', right after its value, exactly when its value is among the selected ones. */
  function HtmlOpcao(o: Opcao, selecionados: seq<string>): (r: string)
    ensures StartsWith(r, AbreOpcao(o.valor)) && EndsWith(r, FechaOpcao(o.texto))
    ensures OccursAt(r, " SELECTED", |AbreOpcao(o.valor)|) <==> o.valor in selecionados
  {
    var x := AbreOpcao(o.valor);
    var m := if o.valor in selecionados then " SELECTED" else "";
    var y := FechaOpcao(o.texto);
    var r := x + m + y;
    assert r[..|x|] == x;
    assert r[|r| - |y|..] == y;
    assert r[|x|..] == m + y;
    assert o.valor !in selecionados ==> r[|x|] == '>';
    r
  }

  /** The options, one per line. */
  function OpcoesHTML(os: seq<Opcao>, selecionados: seq<string>): string
  {
    Join(seq(|os|, i requires 0 <= i < |os| => HtmlOpcao(os[i], selecionados)), "\n")
  }

  /**
   * With no options the select holds only the 'no option' entry, and since
   * its value is empty it is marked selected when '' is among the selected
   * values.
   */
  lemma ComboVazio(o: Opcoes, inicial: seq<Opcao>, nenhuma: string, selecionados: seq<string>)
    requires Tamanho(o) == 0
    ensures OpcoesHTML(ListaOpcoes(o, inicial, nenhuma), selecionados) == HtmlOpcao(Opcao("", nenhuma), selecionados)
    ensures OccursAt(OpcoesHTML(ListaOpcoes(o, inicial, nenhuma), selecionados), " SELECTED", |AbreOpcao("")|) <==> "" in selecionados
  {
    var os := ListaOpcoes(o, inicial, nenhuma);
    assert seq(|os|, i requires 0 <= i < |os| => HtmlOpcao(os[i], selecionados)) == [HtmlOpcao(Opcao("", nenhuma), selecionados)];
  }

  // --------------------------------------------------------- arquivoUpload

  /** The extensions given to arquivoUpload: none (null), an array, or a comma-separated text. */
  datatype Extensoes = Nenhuma | Lista(itens: seq<string>) | Texto(texto: string)

  /** The extensions as text when they are not empty(): an array is joined with ', '. */
  function ExtensoesTexto(e: Extensoes): (r: Option<string>)
    ensures r.None? <==> e.Nenhuma? || e == Lista([]) || (e.Texto? && Values.Empty(Values.Str(e.texto)))
  {
    match e
    case Nenhuma => None
    case Lista(l) => if l == [] then None else Some(Join(l, ", "))
    case Texto(t) => if Values.Empty(Values.Str(t)) then None else Some(t)
  }

  predicate Minuscula(c: char)
  {
    'a' <= c <= 'z'
  }

  predicate Minusculas(s: string, i: int, j: int)
    requires 0 <= i <= j <= |s|
  {
    forall k :: i <= k < j ==> Minuscula(s[k])
  }

  /** s[i..j] is matched by \s?[a-z]{3,4}. */
  predicate Extensao(s: string, i: int, j: int)
    requires 0 <= i <= j <= |s|
  {
    (3 <= j - i <= 4 && Minusculas(s, i, j)) ||
    (4 <= j - i <= 5 && Strings.IsPcreSpace(s[i]) && Minusculas(s, i + 1, j))
  }

  /** Where '$' lets a letter end the match: the end, or before a final newline. */
  function Ancora(s: string): (e: nat)
    ensures e <= |s|
  {
    if |s| > 0 && s[|s| - 1] == '\n' then |s| - 1 else |s|
  }

  /** ',(\s?[a-z]{3,4})$' matches from p. */
  predicate CasaEm(s: string, p: int)
  {
    0 <= p < Ancora(s) && s[p] == ',' && Extensao(s, p + 1, Ancora(s))
  }

  /** The leftmost match: only the last six characters before the anchor can start one. */
  function InicioTroca(s: string): (r: Option<nat>)
    ensures r.Some? ==> CasaEm(s, r.value) && forall p :: 0 <= p < r.value ==> !CasaEm(s, p)
    ensures r.None? ==> forall p :: !CasaEm(s, p)
  {
    var e := Ancora(s);
    if CasaEm(s, e - 6) then Some(e - 6)
    else if CasaEm(s, e - 5) then Some(e - 5)
    else if CasaEm(s, e - 4) then Some(e - 4)
    else None
  }

  /**
   * preg_replace('~,(\s?[a-z]{3,4})$~', ' e ${1}', s): the comma before the
   * last extension becomes ' e ', keeping the blank that followed it.
   */
  function TrocarUltimaExtensao(s: string): (r: string)
    ensures InicioTroca(s).None? <==> r == s
    ensures ',' !in s ==> r == s
    ensures |r| == |s| + (if InicioTroca(s).Some? then 2 else 0)
  {
    match InicioTroca(s)
    case None => s
    case Some(p) => s[..p] + " e " + s[p + 1..]
  }

  /** The first start of a match is where the replacement happens. */
  lemma InicioPrimeiro(s: string, p: nat)
    requires CasaEm(s, p) && forall q :: 0 <= q < p ==> !CasaEm(s, q)
    ensures InicioTroca(s) == Some(p)
  {
  }

  /**
   * The last extension of a list joined with ', ' is introduced by ' e '
   * followed by the blank it already had: 'jpg, png' reads 'jpg e  png'.
   */
  lemma TrocarUltimaLista(a: string, x: string)
    requires 3 <= |x| <= 4 && forall k :: 0 <= k < |x| ==> Minuscula(x[k])
    ensures TrocarUltimaExtensao(a + ", " + x) == a + " e  " + x
  {
    var s := a + ", " + x;
    assert s[|s| - 1] == x[|x| - 1];
    assert Ancora(s) == |s|;
    assert s[|a|] == ',' && s[|a| + 1] == ' ';
    assert forall k :: |a| + 2 <= k < |s| ==> s[k] == x[k - |a| - 2];
    assert Minusculas(s, |a| + 2, |s|);
    assert CasaEm(s, |a|);
    forall q | 0 <= q < |a|
      ensures !CasaEm(s, q)
    {
      if q == |a| - 1 {
        assert !Strings.IsPcreSpace(s[q + 1]);
        assert !Minuscula(s[q + 1]);
      }
    }
    InicioPrimeiro(s, |a|);
    assert s[..|a|] == a && s[|a| + 1..] == " " + x;
  }

  /** The text after the field: the extensions, when their text is not empty(). */
  function SufixoUpload(e: Extensoes): (r: string)
    ensures ExtensoesTexto(e).None? ==> r == ""
    ensures ExtensoesTexto(e).Some? && Values.Empty(Values.Str(ExtensoesTexto(e).value)) ==> r == ""
    ensures ExtensoesTexto(e).Some? && !Values.Empty(Values.Str(ExtensoesTexto(e).value)) ==>
            r == "<br/>Extensões: " + TrocarUltimaExtensao(ExtensoesTexto(e).value)
  {
    match ExtensoesTexto(e)
    case None => ""
    case Some(t) => if Values.Empty(Values.Str(t)) then "" else "<br/>Extensões: " + TrocarUltimaExtensao(t)
  }

  /**
   * An array holding only '0' (or only '') still sets the validation
   * attributes, but the text it joins to is empty() and is not shown.
   */
  lemma UploadListaVazia(x: string)
    requires Values.Empty(Values.Str(x))
    ensures ExtensoesTexto(Lista([x])) == Some(x)
    ensures SufixoUpload(Lista([x])) == ""
  {
  }

  /** A list of extensions is shown with its last one introduced by ' e '. */
  lemma SufixoLista(l: seq<string>, x: string)
    requires l != [] && 3 <= |x| <= 4 && forall k :: 0 <= k < |x| ==> Minuscula(x[k])
    ensures SufixoUpload(Lista(l + [x])) == "<br/>Extensões: " + (Join(l, ", ") + " e  " + x)
  {
    var a := Join(l, ", ");
    JoinSnoc(l, x, ", ");
    ListaTexto(l + [x], a + ", " + x);
    TrocarUltimaLista(a, x);
  }

  lemma ListaTexto(l: seq<string>, t: string)
    requires l != [] && Join(l, ", ") == t && |t| >= 2
    ensures SufixoUpload(Lista(l)) == "<br/>Extensões: " + TrocarUltimaExtensao(t)
  {
  }

  // ---------------------------------------------------------------- helper

  /** The checkbox of chkSimNao and the empty label after it, pointing at its id. */
  function CaixaChk(a: Atributos, id: string): (r: string)
    ensures StartsWith(r, "<input ")
    ensures EndsWith(r, "/>" + RotuloPara(id) + "></label>")
  {
    var x := "<input ";
    var y := "/>" + RotuloPara(id) + "></label>";
    var r := x + Array2AtributosHTML(a) + y;
    assert r[..|x|] == x;
    assert r[|r| - |y|..] == y;
    r
  }

  /** The rotulo of chkSimNao is a plain span, not a label. */
  function RotuloSpan(rotulo: Option<string>): (r: string)
    ensures rotulo.None? <==> r == ""
  {
    match rotulo
    case None => ""
    case Some(t) => "<span class=\"form-rotulo\">" + t + "</span>"
  }

  /** The tables of HTMLForm, with the texts it shows. */
  class HTMLForm {
    /** The static $conf_inputs. */
    var confInputs: Tabela
    /** The static $conf_botoes. */
    var confBotoes: Tabela
    const textos: Textos

    /**
     * The configurations caixaTexto, comboSelect, chkSimNao and arquivoUpload
     * read are always there: novoCampo adds or replaces, never removes.
     */
    predicate Valid()
      reads this
    {
      HasKey(confInputs, "select") && HasKey(confInputs, "textarea") &&
      HasKey(confInputs, "chk-sim-nao") && HasKey(confInputs, "arquivo")
    }

    constructor(textos: Textos)
      ensures confInputs == InputsPadrao() && confBotoes == BotoesPadrao(textos) && this.textos == textos
      ensures Valid()
    {
      confInputs := InputsPadrao();
      confBotoes := BotoesPadrao(textos);
      this.textos := textos;
      new;
      assert confInputs[0].0 == "arquivo" && confInputs[12].0 == "select";
      assert confInputs[13].0 == "textarea" && confInputs[18].0 == "chk-sim-nao";
    }

    /** novoCampo: registers (or replaces) an input configuration. */
    method NovoCampo(nome: string, conf: Atributos)
      requires Valid()
      modifies this
      ensures confInputs == Put(old(confInputs), nome, conf) && confBotoes == old(confBotoes)
      ensures Get(confInputs, nome) == Some(conf)
      ensures Valid()
    {
      GetPut(confInputs, nome, conf, nome);
      GetPut(confInputs, nome, conf, "select");
      GetPut(confInputs, nome, conf, "textarea");
      GetPut(confInputs, nome, conf, "chk-sim-nao");
      GetPut(confInputs, nome, conf, "arquivo");
      confInputs := Put(confInputs, nome, conf);
    }

    /** novoBotao: registers (or replaces) a button configuration. */
    method NovoBotao(nome: string, conf: Atributos)
      requires Valid()
      modifies this
      ensures confBotoes == Put(old(confBotoes), nome, conf) && confInputs == old(confInputs)
      ensures Get(confBotoes, nome) == Some(conf)
      ensures Valid()
    {
      GetPut(confBotoes, nome, conf, nome);
      confBotoes := Put(confBotoes, nome, conf);
    }

    /**
     * campoGeral: an input of the named kind (null for an unknown kind), its
     * label pointing at the field's id.
     */
    function CampoGeral(conf: string, nome: string, id: string, valor: Option<string>, rotulo: Option<string>,
                        dica: Option<string>, params: Atributos): (r: Option<string>)
      reads this
      ensures r.Some? <==> HasKey(confInputs, conf)
      ensures r.Some? ==> EndsWith(r.value, Input(AtributosGeral(Get(confInputs, conf).value, params, nome, id, valor)))
      ensures r.Some? && rotulo.Some? ==> StartsWith(r.value, RotuloPara(IdCampo(Get(confInputs, conf).value, params, id)))
      ensures r.Some? && rotulo.None? && dica.None? ==> StartsWith(r.value, "<input ")
    {
      match Get(confInputs, conf)
      case None => None
      case Some(b) => Some(Montado(IdCampo(b, params, id), rotulo, dica, Input(AtributosGeral(b, params, nome, id, valor))))
    }

    /** caixaTexto: a textarea holding the value ('' for null), labelled for 'txt-' followed by the id. */
    function CaixaTexto(nome: string, id: string, valor: Option<string>, rotulo: Option<string>,
                        dica: Option<string>, params: Atributos): (r: string)
      requires Valid()
      reads this
      ensures EndsWith(r, ">" + valor.GetOr("") + "</textarea>")
      ensures EndsWith(r, Elemento("<textarea ", AtributosCaixa(Get(confInputs, "textarea").value, params, nome, id), valor.GetOr(""), "</textarea>"))
      ensures rotulo.Some? ==> StartsWith(r, RotuloPara("txt-" + id))
    {
      var e := Elemento("<textarea ", AtributosCaixa(Get(confInputs, "textarea").value, params, nome, id), valor.GetOr(""), "</textarea>");
      var r := Montado("txt-" + id, rotulo, dica, e);
      EndsWithTrans(r, e, ">" + valor.GetOr("") + "</textarea>");
      r
    }

    /** comboSelect: a select holding ListaOpcoes' options, those whose value is selected marked. */
    function ComboSelect(nome: string, id: string, selecionados: seq<string>, rotulo: Option<string>, dica: Option<string>,
                         params: Atributos, opcoes: Opcoes, inicial: seq<Opcao>): (r: string)
      requires Valid()
      reads this
      ensures EndsWith(r, ">" + OpcoesHTML(ListaOpcoes(opcoes, inicial, textos.nenhumaOpcao), selecionados) + "</select>")
      ensures EndsWith(r, Elemento("<select ", AtributosCampo(Get(confInputs, "select").value, params, nome, id),
                                   OpcoesHTML(ListaOpcoes(opcoes, inicial, textos.nenhumaOpcao), selecionados), "</select>"))
      ensures rotulo.Some? ==> StartsWith(r, RotuloPara(IdCampo(Get(confInputs, "select").value, params, id)))
    {
      var b := Get(confInputs, "select").value;
      var h := OpcoesHTML(ListaOpcoes(opcoes, inicial, textos.nenhumaOpcao), selecionados);
      var e := Elemento("<select ", AtributosCampo(b, params, nome, id), h, "</select>");
      var r := Montado(IdCampo(b, params, id), rotulo, dica, e);
      EndsWithTrans(r, e, ">" + h + "</select>");
      r
    }

    /** chkSimNao: a checkbox followed by an empty label pointing at its id. */
    function ChkSimNao(nome: string, id: string, selecionado: bool, rotulo: Option<string>, dica: Option<string>,
                       params: Atributos): (r: string)
      requires Valid()
      reads this
      ensures EndsWith(r, CaixaChk(AtributosChk(Get(confInputs, "chk-sim-nao").value, params, nome, id, selecionado),
                                   IdCampo(Get(confInputs, "chk-sim-nao").value, params, id)))
      ensures EndsWith(r, "/>" + RotuloPara(IdCampo(Get(confInputs, "chk-sim-nao").value, params, id)) + "></label>")
      ensures rotulo.None? && dica.None? ==> StartsWith(r, "<input ")
    {
      var b := Get(confInputs, "chk-sim-nao").value;
      var y := CaixaChk(AtributosChk(b, params, nome, id, selecionado), IdCampo(b, params, id));
      var x := RotuloSpan(rotulo) + HtmlDica(dica);
      Precedido(x, y);
      EndsWithTrans(x + y, y, "/>" + RotuloPara(IdCampo(b, params, id)) + "></label>");
      x + y
    }

    /**
     * arquivoUpload: a file input, validated against the extensions when
     * there are any, followed by their list when it is not empty().
     */
    function ArquivoUpload(nome: string, id: string, rotulo: Option<string>, dica: Option<string>, params: Atributos,
                           extensoes: Extensoes): (r: string)
      requires Valid()
      reads this
      ensures EndsWith(r, Input(AtributosArquivo(Get(confInputs, "arquivo").value, params, nome, id, ExtensoesTexto(extensoes), textos.validacaoUpload)) +
                          SufixoUpload(extensoes))
      ensures ExtensoesTexto(extensoes).None? ==> EndsWith(r, "/>")
      ensures rotulo.Some? ==> StartsWith(r, RotuloPara(IdCampo(Get(confInputs, "arquivo").value, params, id)))
    {
      var b := Get(confInputs, "arquivo").value;
      var i := Input(AtributosArquivo(b, params, nome, id, ExtensoesTexto(extensoes), textos.validacaoUpload));
      var m := Montado(IdCampo(b, params, id), rotulo, dica, i);
      var suf := SufixoUpload(extensoes);
      Acrescentado(m, i, suf);
      Acrescentado(m, RotuloPara(IdCampo(b, params, id)), suf);
      if suf == "" then
        assert m + suf == m;
        EndsWithTrans(m, i, "/>");
        m + suf
      else m + suf
    }

    /** botao: a button of the named kind around the text (null for an unknown kind). */
    function Botao(conf: string, texto: string, params: Atributos): (r: Option<string>)
      reads this
      ensures r.Some? <==> HasKey(confBotoes, conf)
      ensures r.Some? ==> StartsWith(r.value, "<button ") && EndsWith(r.value, ">" + texto + "</button>")
    {
      match Get(confBotoes, conf)
      case None => None
      case Some(b) => Some(Elemento("<button ", PutAll(b, params), texto, "</button>"))
    }
  }
}
