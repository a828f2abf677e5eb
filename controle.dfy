// DLX\Classes\Controle (dlx/classes/controle.classe.php): the target of a
// request (application, module, controller class, action and parameters) and
// how it is called. Which classes exist, which methods they have and the
// names of those methods' parameters (PHP reflection) form one table given
// as a parameter: lower-cased class name to lower-cased method name to the
// parameter names, since PHP looks both names up without regard to case.

module Controle {
  import opened Wrappers
  import opened Text
  import opened Values
  import opened Assoc
  import opened Filtros
  import Strings

  /** The arguments of `new Controle(aplicativo, modulo, controle, acao, params)`. */
  datatype ArgsControle = ArgsControle(aplicativo: Value, modulo: Value, controle: Value, acao: Value, params: seq<(Key, Value)>)

  /** The call executar finally makes: the controller class, the method and the arguments passed in order. */
  datatype Chamada = Chamada(classe: string, metodo: string, args: seq<Value>)

  /** Existing classes, their methods and each method's parameter names, all names lower-cased. */
  type Classes = map<string, map<string, seq<string>>>

  /** The text of a sanitized value, "" when the filter gives null. */
  function SanitizadoOuVazio(v: Value): string
  {
    match SanitizarValor(v) case Some(t) => t case None => ""
  }

  /**
   * setAplicativo and setModulo: the sanitized name with '-' read as a word
   * break, every word capitalised by ucwords and the spaces removed.
   */
  function NomePSR(v: Value): (r: string)
    ensures ' ' !in r
  {
    var s := ReplaceAll(SanitizadoOuVazio(v), "-", " ");
    ReplaceCharGone(Strings.Ucwords(s), ' ', "");
    ReplaceAll(Strings.Ucwords(s), " ", "")
  }

  lemma {:induction false} TrocarHifens(ws: seq<string>)
    requires forall i :: 0 <= i < |ws| ==> '-' !in ws[i]
    ensures ReplaceAll(Join(ws, "-"), "-", " ") == Join(ws, " ")
    decreases |ws|
  {
    if |ws| == 1 {
      ReplaceCharAbsent(ws[0], '-', " ");
    } else if |ws| > 1 {
      TrocarHifens(ws[1..]);
      assert ws[0] + "-" + Join(ws[1..], "-") == ws[0] + ("-" + Join(ws[1..], "-"));
      ReplaceCharAppend(ws[0], "-" + Join(ws[1..], "-"), '-', " ");
      ReplaceCharAppend("-", Join(ws[1..], "-"), '-', " ");
      ReplaceCharAbsent(ws[0], '-', " ");
      assert ReplaceAll("-", "-", " ") == " ";
      assert ws[0] + " " + Join(ws[1..], " ") == ws[0] + (" " + Join(ws[1..], " "));
    }
  }

  /** A word setAplicativo keeps as one unit: no blank, accent, '-', '_', '<' or quote. */
  predicate PalavraSimples(w: string)
  {
    Strings.PlainWord(w) && '<' !in w && '"' !in w && '\'' !in w
  }

  lemma JoinSimples(ws: seq<string>)
    requires forall i :: 0 <= i < |ws| ==> PalavraSimples(ws[i])
    ensures '<' !in Join(ws, "-") && '"' !in Join(ws, "-") && '\'' !in Join(ws, "-")
  {
    if '<' in Join(ws, "-") {
      JoinChars(ws, "-", '<');
    }
    if '"' in Join(ws, "-") {
      JoinChars(ws, "-", '"');
    }
    if '\'' in Join(ws, "-") {
      JoinChars(ws, "-", '\'');
    }
  }

  /** Hyphen-separated words become one capitalised name: "painel-dlx" gives "PainelDlx". */
  lemma NomePSRPalavras(ws: seq<string>)
    requires |ws| >= 1 && forall i :: 0 <= i < |ws| ==> PalavraSimples(ws[i])
    requires Join(ws, "-") != ""
    ensures NomePSR(Str(Join(ws, "-"))) == Strings.Concat(Strings.Capitalized(ws))
  {
    var s := Join(ws, "-");
    JoinSimples(ws);
    SanitizarTextoSimples(s);
    assert SanitizadoOuVazio(Str(s)) == s;
    TrocarHifens(ws);
    forall i | 0 <= i < |ws| ensures Strings.NoSpaces(ws[i]) {
    }
    Strings.UcwordsJoin(ws);
    Strings.CapitalizedNoSpace(ws);
    Strings.RemoveSpacesJoin(Strings.Capitalized(ws));
  }

  /**
   * setControle: "Aplicativo\" when the application is not empty, then
   * "Modulo\" when the module is not empty, then "Controles\" and the
   * sanitized controller name. It reads the application and module already set.
   */
  function NomeControle(aplicativo: string, modulo: string, controle: string): (r: string)
    ensures EndsWith(r, "Controles\\" + controle)
    ensures aplicativo != "" && aplicativo != "0" ==> StartsWith(r, aplicativo + "\\")
  {
    var app := if Empty(Str(aplicativo)) then "" else aplicativo + "\\";
    var mod := if Empty(Str(modulo)) then "" else modulo + "\\";
    var fim := "Controles\\" + controle;
    var r := app + mod + fim;
    assert r == app + (mod + fim);
    assert r[|r| - |fim|..] == fim;
    assert r[..|app|] == app;
    r
  }

  /** The arguments chamarMetodo passes: for each parameter, in order, the argument under its name when there is one. */
  function Argumentos(parametros: seq<string>, args: seq<(Key, Value)>): (r: seq<Value>)
    ensures |r| <= |parametros|
    decreases |parametros|
  {
    if parametros == [] then []
    else
      var n := |parametros| - 1;
      Argumentos(parametros[..n], args) + (match Get(args, StrKey(parametros[n])) case Some(v) => [v] case None => [])
  }

  /** When every parameter has an argument, one is passed per parameter, in parameter order. */
  lemma {:induction false} ArgumentosCompletos(parametros: seq<string>, args: seq<(Key, Value)>)
    requires forall i :: 0 <= i < |parametros| ==> HasKey(args, StrKey(parametros[i]))
    ensures |Argumentos(parametros, args)| == |parametros|
    ensures forall i :: 0 <= i < |parametros| ==> Argumentos(parametros, args)[i] == Get(args, StrKey(parametros[i])).value
    decreases |parametros|
  {
    if parametros != [] {
      var p := parametros[..|parametros| - 1];
      forall i | 0 <= i < |p| ensures HasKey(args, StrKey(p[i])) {
        assert p[i] == parametros[i];
      }
      ArgumentosCompletos(p, args);
      var v := Get(args, StrKey(parametros[|parametros| - 1])).value;
      assert Argumentos(parametros, args) == Argumentos(p, args) + [v];
      forall i | 0 <= i < |parametros| ensures Argumentos(parametros, args)[i] == Get(args, StrKey(parametros[i])).value {
        if i < |p| {
          assert p[i] == parametros[i];
        }
      }
    }
  }

  /** Arguments under names that are not parameters play no part. */
  lemma {:induction false} ArgumentosSoParametros(parametros: seq<string>, a: seq<(Key, Value)>, b: seq<(Key, Value)>)
    requires forall i :: 0 <= i < |parametros| ==> Get(a, StrKey(parametros[i])) == Get(b, StrKey(parametros[i]))
    ensures Argumentos(parametros, a) == Argumentos(parametros, b)
    decreases |parametros|
  {
    if parametros != [] {
      var n := |parametros| - 1;
      ArgumentosSoParametros(parametros[..n], a, b);
    }
  }

  /** chamarMetodo's loop over the method's parameter names. */
  method ChamarMetodo(parametros: seq<string>, args: seq<(Key, Value)>) returns (pass: seq<Value>)
    ensures pass == Argumentos(parametros, args)
  {
    pass := [];
    var i := 0;
    while i < |parametros|
      invariant 0 <= i <= |parametros|
      invariant pass == Argumentos(parametros[..i], args)
    {
      assert parametros[..i + 1][..i] == parametros[..i];
      var v := Get(args, StrKey(parametros[i]));
      if v.Some? {
        pass := pass + [v.value];
      }
      i := i + 1;
    }
    assert parametros[..i] == parametros;
  }

  /** The target executar falls back to: Comum's ErroHTTP controller, mostrarErro, status 404 and the master page "erro". */
  const ALVO_ERRO: ArgsControle := ArgsControle(Null, Str("Comum"), Str("ErroHTTP"), Str("mostrarErro"),
    [(StrKey("status_http"), Int(404)), (StrKey("pg_mestra"), Str("erro"))])

  /** The parameters executar falls back to, as setParams stores them. */
  const PARAMS_ERRO: seq<(Key, Value)> := [(StrKey("status_http"), Str("404")), (StrKey("pg_mestra"), Str("erro"))]

  lemma NomeVazio()
    ensures NomePSR(Null) == ""
  {
    assert ReplaceAll("", "-", " ") == "";
    assert Strings.Ucwords("") == "";
    assert ReplaceAll("", " ", "") == "";
  }

  /** A single plain word that already starts with a capital is kept as it is. */
  lemma NomeUmaPalavra(w: string)
    requires PalavraSimples(w) && w != "" && IsUpperAscii(w[0])
    ensures NomePSR(Str(w)) == w
  {
    assert Join([w], "-") == w;
    NomePSRPalavras([w]);
    assert Strings.Capitalized([w]) == [Strings.Ucfirst(w)];
    assert Strings.Ucfirst(w) == [w[0]] + w[1..] == w;
    assert Strings.Concat([w]) == w + Strings.Concat([]);
  }

  lemma NomeComum()
    ensures NomePSR(Str("Comum")) == "Comum"
  {
    NomeUmaPalavra("Comum");
  }

  /** Without an application, a controller in a module is "Modulo\Controles\Nome". */
  lemma NomeControleModulo(modulo: string, c: string)
    requires modulo != "" && modulo != "0"
    ensures NomeControle("", modulo, c) == modulo + "\\Controles\\" + c
  {
  }

  lemma AcaoSimples(a: string)
    requires a != "" && '<' !in a && '"' !in a && '\'' !in a
    ensures SanitizarValor(Str(a)) == Some(a)
  {
    SanitizarTextoSimples(a);
  }

  lemma Texto404()
    ensures IntText(404) == "404"
  {
    assert NatToString(4) == "4";
    assert NatToString(40) == NatToString(4) + ['0'];
    assert NatToString(404) == NatToString(40) + ['4'];
  }

  /** Two leaf parameters, an integer and a text, come back from the default filter as texts, in order. */
  lemma ParamsFolhas(k1: Key, n: int, k2: Key, t: string)
    ensures FiltroPadraoArray(Arr([(k1, Int(n)), (k2, Str(t))])) == Some([(k1, Str(IntText(n))), (k2, Str(t))])
  {
    var a := [(k1, Int(n)), (k2, Str(t))];
    var r := FiltroPadraoArray(Arr(a)).value;
    FiltroPadraoEntrada(a, 0);
    FiltroPadraoEntrada(a, 1);
    assert r == [(k1, Str(IntText(n))), (k2, Str(t))];
  }

  /** The fallback target's application and module: none, and Comum. */
  lemma AlvoErroModulo()
    ensures NomePSR(ALVO_ERRO.aplicativo) == "" && NomePSR(ALVO_ERRO.modulo) == "Comum"
  {
    NomeVazio();
    NomeComum();
  }

  /** The fallback target's controller, in module Comum without an application: Comum\Controles\ErroHTTP. */
  lemma AlvoErroControle()
    ensures NomeControle("", "Comum", SanitizadoOuVazio(ALVO_ERRO.controle)) == "Comum" + "\\Controles\\" + "ErroHTTP"
  {
    var comum, erro := "Comum", "ErroHTTP";
    AcaoSimples(erro);
    assert SanitizadoOuVazio(Str(erro)) == erro;
    NomeControleModulo(comum, erro);
  }

  /** The fallback target's action and parameters: mostrarErro, and status_http "404" and pg_mestra "erro" as texts. */
  lemma AlvoErroAcao()
    ensures SanitizarValor(ALVO_ERRO.acao) == Some("mostrarErro")
    ensures FiltroPadraoArray(Arr(ALVO_ERRO.params)) == Some(PARAMS_ERRO)
  {
    var mostrar, status, pg := "mostrarErro", StrKey("status_http"), StrKey("pg_mestra");
    AcaoSimples(mostrar);
    Texto404();
    ParamsFolhas(status, 404, pg, "erro");
  }

  class Controle {
    var aplicativo: string
    var modulo: string
    var controle: string
    var acao: Option<string>
    var params: Option<seq<(Key, Value)>>

    /** The constructor stores its arguments through the setters. */
    constructor (a: ArgsControle)
      ensures aplicativo == NomePSR(a.aplicativo) && modulo == NomePSR(a.modulo)
      ensures controle == NomeControle(aplicativo, modulo, SanitizadoOuVazio(a.controle))
      ensures acao == SanitizarValor(a.acao) && params == FiltroPadraoArray(Arr(a.params))
    {
      aplicativo, modulo, controle, acao, params := "", "", "", None, None;
      new;
      Definir(a);
    }

    /** The setters in the order the constructor and executar call them, so setControle sees the application and module just set. */
    method Definir(a: ArgsControle)
      modifies this
      ensures aplicativo == NomePSR(a.aplicativo) && modulo == NomePSR(a.modulo)
      ensures controle == NomeControle(aplicativo, modulo, SanitizadoOuVazio(a.controle))
      ensures acao == SanitizarValor(a.acao) && params == FiltroPadraoArray(Arr(a.params))
    {
      SetAplicativo(a.aplicativo);
      SetModulo(a.modulo);
      SetControle(a.controle);
      SetAcao(a.acao);
      SetParams(Arr(a.params));
    }

    method SetAplicativo(v: Value)
      modifies this
      ensures aplicativo == NomePSR(v)
      ensures modulo == old(modulo) && controle == old(controle) && acao == old(acao) && params == old(params)
    {
      aplicativo := NomePSR(v);
    }

    method SetModulo(v: Value)
      modifies this
      ensures modulo == NomePSR(v)
      ensures aplicativo == old(aplicativo) && controle == old(controle) && acao == old(acao) && params == old(params)
    {
      modulo := NomePSR(v);
    }

    method SetControle(v: Value)
      modifies this
      ensures controle == NomeControle(aplicativo, modulo, SanitizadoOuVazio(v))
      ensures aplicativo == old(aplicativo) && modulo == old(modulo) && acao == old(acao) && params == old(params)
    {
      controle := NomeControle(aplicativo, modulo, SanitizadoOuVazio(v));
    }

    method SetAcao(v: Value)
      modifies this
      ensures acao == SanitizarValor(v)
      ensures aplicativo == old(aplicativo) && modulo == old(modulo) && controle == old(controle) && params == old(params)
    {
      acao := SanitizarValor(v);
    }

    /** setParams: an array with its leaves turned into text, or null for anything else. */
    method SetParams(v: Value)
      modifies this
      ensures params == FiltroPadraoArray(v)
      ensures aplicativo == old(aplicativo) && modulo == old(modulo) && controle == old(controle) && acao == old(acao)
    {
      params := FiltroPadraoArray(v);
    }

    /** validar: the controller class exists and has the action as a method. */
    predicate Validar(classes: Classes)
      reads this
    {
      Lower(controle) in classes && acao.Some? && Lower(acao.value) in classes[Lower(controle)]
    }

    /**
     * executar: an invalid target is first rewritten to the ErroHTTP controller's
     * mostrarErro with status 404 and the error master page; then the action is
     * called with the arguments chamarMetodo binds. None stands for PHP's fatal
     * error when even that target does not exist.
     */
    method Executar(classes: Classes) returns (r: Option<Chamada>)
      modifies this
      ensures old(Validar(classes)) ==>
        aplicativo == old(aplicativo) && modulo == old(modulo) &&
        controle == old(controle) && acao == old(acao) && params == old(params)
      ensures !old(Validar(classes)) ==>
        aplicativo == "" && modulo == "Comum" &&
        controle == "Comum" + "\\Controles\\" + "ErroHTTP" && acao == Some("mostrarErro") && params == Some(PARAMS_ERRO)
      ensures r.Some? <==> Validar(classes)
      ensures r.Some? ==>
        r.value.classe == controle && r.value.metodo == acao.value &&
        r.value.args == Argumentos(classes[Lower(controle)][Lower(acao.value)], params.GetOr([]))
    {
      if !Validar(classes) {
        AlvoErroModulo();
        AlvoErroControle();
        AlvoErroAcao();
        Definir(ALVO_ERRO);
      }
      if !Validar(classes) {
        return None;
      }
      var pass := ChamarMetodo(classes[Lower(controle)][Lower(acao.value)], params.GetOr([]));
      r := Some(Chamada(controle, acao.value, pass));
    }
  }
}
