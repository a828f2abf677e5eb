// DLX\Classes\Visao (dlx/classes/visao.classe.php): the view of a request. It
// keeps the ordered list of templates, the CSS and JS assets, the parameters
// the templates read and the layout areas of the master page, and composes
// the final HTML by replacing each "[AREA/]" placeholder of the master page
// with the matching area of the rendered templates. Rendering a template or a
// master page (include and output buffering) is an input: its text.

module Visao {
  import opened Wrappers
  import opened Text
  import opened Values
  import opened Assoc
  import Filtros
  import Arquivos
  import VisaoAjudante

  const EXT_TEMPLATE: string := "phtml"

  /** The ancestor levels adicionarTemplate searches (the default of procurarDiretoriosAntecessores). */
  const NIVEIS_BUSCA: int := 5

  const AREAS_PADRAO: seq<Option<string>> := [Some("DLX-HEAD"), Some("DLX-TOPO"), Some("DLX-MENU"),
    Some("DLX-CONTEUDO"), Some("DLX-RODAPE"), Some("DLX-ESTILOS"), Some("DLX-SCRIPTS")]

  const PARAMS_PADRAO: seq<(Key, Value)> := [(StrKey("tag-title"), Str("Sem título"))]

  // ------------------------------------------------------------------ templates

  /** Integer keys in strictly increasing order: the shape ksort leaves. */
  predicate Crescente(t: seq<(int, string)>)
  {
    forall i, j :: 0 <= i < j < |t| ==> t[i].0 < t[j].0
  }

  /** Every key of t is below k. */
  predicate ChavesAbaixo(t: seq<(int, string)>, k: int)
  {
    forall i :: 0 <= i < |t| ==> t[i].0 < k
  }

  /**
   * $templates[k] = v followed by ksort: the entry under k is (re)placed
   * where the order of the keys puts it.
   */
  function Armazenar(t: seq<(int, string)>, k: int, v: string): (r: seq<(int, string)>)
    ensures |r| >= 1
    decreases |t|
  {
    if t == [] || k < t[0].0 then [(k, v)] + t
    else if t[0].0 == k then [(k, v)] + t[1..]
    else [t[0]] + Armazenar(t[1..], k, v)
  }

  /**
   * On a key-sorted list the entry (k, v) is there after storing, and every
   * other entry is an entry of t under another key, all of which stay.
   */
  lemma {:induction false} ArmazenarMembros(t: seq<(int, string)>, k: int, v: string)
    requires Crescente(t)
    ensures forall e :: e in Armazenar(t, k, v) <==> e == (k, v) || (e in t && e.0 != k)
    decreases |t|
  {
    if t == [] || k < t[0].0 {
      forall e | e in t ensures e.0 != k {
        var j :| 0 <= j < |t| && t[j] == e;
      }
    } else if t[0].0 == k {
      forall e | e in t[1..] ensures e.0 != k {
        var j :| 0 <= j < |t[1..]| && t[1..][j] == e;
        assert t[j + 1] == e;
      }
      assert t == [t[0]] + t[1..];
    } else {
      ArmazenarMembros(t[1..], k, v);
      assert t == [t[0]] + t[1..];
    }
  }

  /** Storing keeps a key-sorted list key-sorted. */
  lemma {:induction false} ArmazenarCrescente(t: seq<(int, string)>, k: int, v: string)
    requires Crescente(t)
    ensures Crescente(Armazenar(t, k, v))
    decreases |t|
  {
    if !(t == [] || k < t[0].0 || t[0].0 == k) {
      var resto := Armazenar(t[1..], k, v);
      ArmazenarCrescente(t[1..], k, v);
      ArmazenarMembros(t[1..], k, v);
      forall i | 0 <= i < |resto| ensures t[0].0 < resto[i].0 {
        assert resto[i] in resto;
        if resto[i] != (k, v) {
          var j :| 0 <= j < |t[1..]| && t[1..][j] == resto[i];
          assert t[j + 1] == resto[i];
        }
      }
    }
  }

  /** The path of a template: "{diretorio_visoes}{template}.phtml". */
  function CaminhoTemplate(diretorio: string, template: string): string
  {
    diretorio + template + "." + EXT_TEMPLATE
  }

  /**
   * The file adicionarTemplate settles on: the template's own path when it
   * exists; otherwise, when searching is allowed, the first ancestor
   * directory that holds it; none when neither applies.
   */
  function Localizar(diretorio: string, template: string, procurar: bool, existe: set<string>): (r: Option<string>)
    ensures r.Some? ==> r.value in existe
    ensures CaminhoTemplate(diretorio, template) in existe ==> r == Some(CaminhoTemplate(diretorio, template))
    ensures CaminhoTemplate(diretorio, template) !in existe && !procurar ==> r.None?
  {
    var c := CaminhoTemplate(diretorio, template);
    if c in existe then Some(c)
    else if procurar then
      Arquivos.BuscaPrimeiroNivel(Arquivos.Modelo(c, diretorio), diretorio, NIVEIS_BUSCA, existe);
      Arquivos.Busca(Arquivos.Modelo(c, diretorio), diretorio, NIVEIS_BUSCA, existe)
    else None
  }

  /**
   * A template path preg_grep("~{template}.phtml~") selects: the name, any
   * character but a newline, then "phtml".
   */
  predicate CasaTemplate(template: string, caminho: string)
  {
    exists i :: 0 <= i && OccursAt(caminho, template, i) && i + |template| < |caminho| &&
      caminho[i + |template|] != '\n' && OccursAt(caminho, EXT_TEMPLATE, i + |template| + 1)
  }

  /** The entries removerTemplate keeps: those whose path the name does not select, in order. */
  function SemTemplate(t: seq<(int, string)>, template: string): (r: seq<(int, string)>)
    ensures forall e :: e in r <==> e in t && !CasaTemplate(template, e.1)
    decreases |t|
  {
    if t == [] then []
    else
      var antes := SemTemplate(t[..|t| - 1], template);
      var e := t[|t| - 1];
      assert forall x :: x in t <==> x in t[..|t| - 1] || x == e by {
        assert t == t[..|t| - 1] + [e];
      }
      if CasaTemplate(template, e.1) then antes else antes + [e]
  }

  /** Removing templates keeps the keys in increasing order and below the next key. */
  lemma {:induction false} SemTemplateOrdem(t: seq<(int, string)>, template: string, k: int)
    requires Crescente(t) && ChavesAbaixo(t, k)
    ensures Crescente(SemTemplate(t, template)) && ChavesAbaixo(SemTemplate(t, template), k)
    decreases |t|
  {
    var r := SemTemplate(t, template);
    if t != [] {
      var ini, e := t[..|t| - 1], t[|t| - 1];
      var antes := SemTemplate(ini, template);
      assert forall i :: 0 <= i < |ini| ==> ini[i] == t[i];
      SemTemplateOrdem(ini, template, k);
      if !CasaTemplate(template, e.1) {
        forall i | 0 <= i < |antes| ensures antes[i].0 < e.0 {
          assert antes[i] in ini;
          var j :| 0 <= j < |ini| && ini[j] == antes[i];
        }
        CrescenteSnoc(antes, e);
      }
    }
  }

  lemma CrescenteSnoc(a: seq<(int, string)>, e: (int, string))
    requires Crescente(a) && forall i :: 0 <= i < |a| ==> a[i].0 < e.0
    ensures Crescente(a + [e])
  {
  }

  // ----------------------------------------------------------------- JS and CSS

  /**
   * The insertion adicionarJS and adicionarCSS document for their position argument: no
   * position appends; a position inserts there (past the end, appends).
   */
  function AdicionarValorPos(l: seq<string>, v: string, ordem: Option<nat>): (r: seq<string>)
    ensures multiset(r) == multiset(l) + multiset{v}
    ensures ordem.None? ==> r == l + [v]
    ensures ordem.Some? && ordem.value <= |l| ==> r[ordem.value] == v && r[..ordem.value] == l[..ordem.value] && r[ordem.value + 1..] == l[ordem.value..]
  {
    var p := if ordem.None? || ordem.value > |l| then |l| else ordem.value;
    assert l == l[..p] + l[p..];
    l[..p] + [v] + l[p..]
  }

  /** The Error PHP raises where adicionarJS and adicionarCSS call a method DLX\Ajudantes\Vetores does not define. */
  const MSG_SEM_ADICIONAR_VALOR_POS := "Call to undefined method DLX\\Ajudantes\\Vetores::adicionarValorPos()"

  /** The first index of x in l. */
  function PrimeiroIndice(l: seq<string>, x: string): (r: Option<nat>)
    ensures r.None? <==> x !in l
    ensures r.Some? ==> r.value < |l| && l[r.value] == x && x !in l[..r.value]
    decreases |l|
  {
    if l == [] then None
    else if l[0] == x then Some(0)
    else
      var r := PrimeiroIndice(l[1..], x);
      if r.None? then None
      else
        assert l[..r.value + 1] == [l[0]] + l[1..][..r.value];
        Some(r.value + 1)
  }

  /** array_search then unset: only the first occurrence goes; a missing value changes nothing. */
  function RemoverPrimeiro(l: seq<string>, x: string): (r: seq<string>)
    ensures x !in l ==> r == l
    ensures x in l ==> multiset(r) + multiset{x} == multiset(l)
    ensures x in l ==> exists k :: 0 <= k < |l| && l[k] == x && x !in l[..k] && r == l[..k] + l[k + 1..]
  {
    var k := PrimeiroIndice(l, x);
    if k.None? then l
    else
      assert l == l[..k.value] + [x] + l[k.value + 1..];
      l[..k.value] + l[k.value + 1..]
  }

  /** array_map(fn ($a) => diretorioRelativo() . $a, lista). */
  function Prefixar(prefixo: string, l: seq<string>): (r: seq<string>)
    ensures |r| == |l| && forall i :: 0 <= i < |l| ==> r[i] == prefixo + l[i]
  {
    if l == [] then [] else [prefixo + l[0]] + Prefixar(prefixo, l[1..])
  }

  /** The two kinds of external file carregarArquivosExternos emits. */
  datatype Tipo = Css | Js

  /** The tag of one file. */
  function Tag(tipo: Tipo, caminho: string): string
  {
    match tipo
    case Css => ANTES_CSS + caminho + DEPOIS_CSS
    case Js => ANTES_JS + caminho + DEPOIS_JS
  }

  const ANTES_CSS: string := "<link rel=\"stylesheet\" type=\"text/css\" href=\""
  const DEPOIS_CSS: string := "\"/>\n"
  const ANTES_JS: string := "<script src=\""
  const DEPOIS_JS: string := "\"></script>\n"

  /** The wrapper of each kind's block. */
  function Abertura(tipo: Tipo): string
  {
    match tipo
    case Css => "[DLX-ARQUIVOS-CSS]"
    case Js => "[DLX-ARQUIVOS-JS]"
  }

  function Fechamento(tipo: Tipo): string
  {
    match tipo
    case Css => "[/DLX-ARQUIVOS-CSS]"
    case Js => "[/DLX-ARQUIVOS-JS]"
  }

  /** One tag per file, in the list's order. */
  function Tags(tipo: Tipo, l: seq<string>): string
    decreases |l|
  {
    if l == [] then "" else Tag(tipo, l[0]) + Tags(tipo, l[1..])
  }

  /** The tags of two lists one after the other are the tags of each list in turn. */
  lemma {:induction false} TagsConcat(tipo: Tipo, a: seq<string>, b: seq<string>)
    ensures Tags(tipo, a + b) == Tags(tipo, a) + Tags(tipo, b)
    decreases |a|
  {
    if a == [] {
      assert a + b == b;
    } else {
      var ab := a + b;
      assert ab[0] == a[0] && ab[1..] == a[1..] + b;
      TagsConcat(tipo, a[1..], b);
      var t := Tag(tipo, a[0]);
      assert (t + Tags(tipo, a[1..])) + Tags(tipo, b) == t + (Tags(tipo, a[1..]) + Tags(tipo, b));
    }
  }

  /** The tags of a prefix one file longer end with that file's tag. */
  lemma TagsPrefixo(tipo: Tipo, l: seq<string>, i: nat)
    requires i < |l|
    ensures Tags(tipo, l[..i + 1]) == Tags(tipo, l[..i]) + Tag(tipo, l[i])
  {
    assert l[..i + 1] == l[..i] + [l[i]];
    TagsConcat(tipo, l[..i], [l[i]]);
    assert Tags(tipo, [l[i]]) == Tag(tipo, l[i]) + Tags(tipo, []);
  }

  /** The block of one kind: its tags inside the wrapper, nothing for an empty list. */
  function Bloco(tipo: Tipo, l: seq<string>): string
  {
    if l == [] then "" else Abertura(tipo) + Tags(tipo, l) + Fechamento(tipo)
  }

  /** What carregarArquivosExternos appends: the CSS block, then the JS block. */
  function Externos(css: seq<string>, js: seq<string>): (r: string)
    ensures css == [] && js == [] ==> r == ""
    ensures StartsWith(r, Bloco(Css, css)) && EndsWith(r, Bloco(Js, js))
  {
    var c, j := Bloco(Css, css), Bloco(Js, js);
    assert (c + j)[..|c|] == c;
    assert (c + j)[|c + j| - |j|..] == j;
    c + j
  }

  // ----------------------------------------------------------------- parameters

  /** The key adicionarParam stores under: the sanitized name, "" when it sanitizes to null. */
  function ChaveParam(nome: string): Key
  {
    AsKey(Str(Filtros.Sanitizar(nome)))
  }

  /** The value it stores: a scalar other than a boolean goes through FILTER_DEFAULT (its text). */
  function ValorParam(v: Value): (r: Value)
    ensures v.Int? ==> r == Str(IntText(v.i))
    ensures !v.Int? ==> r == v
  {
    if IsScalar(v) && !v.Bool? then Filtros.TextoPadrao(v) else v
  }

  /** $this->params[nome] = valor: a new name goes last, an existing one keeps its place. */
  function ComParam(params: seq<(Key, Value)>, nome: string, valor: Value): seq<(Key, Value)>
  {
    Put(params, ChaveParam(nome), ValorParam(valor))
  }

  function AvisoParam(nome: string): string
  {
    "<p class=\"mostrar-msg -atencao\">O parâmetro de visão <b>" + nome + "</b> não existe.</p>"
  }

  /** obterParams(nome): every parameter without a name; the stored value, or a warning paragraph, with one. */
  function ObterParams(params: seq<(Key, Value)>, nome: Option<string>): (r: Value)
    ensures nome.None? ==> r == Arr(params)
    ensures nome.Some? && HasKey(params, AsKey(Str(nome.value))) ==> Get(params, AsKey(Str(nome.value))) == Some(r)
    ensures nome.Some? && !HasKey(params, AsKey(Str(nome.value))) ==> r == Str(AvisoParam(nome.value))
  {
    if nome.None? then Arr(params)
    else
      var g := Get(params, AsKey(Str(nome.value)));
      if g.Some? then g.value else Str(AvisoParam(nome.value))
  }

  /** A parameter added under a plain name reads back as what was stored; the other names are unaffected. */
  lemma ParamAdicionado(params: seq<(Key, Value)>, nome: string, valor: Value, outro: string)
    requires '<' !in nome && '"' !in nome && '\'' !in nome
    ensures ObterParams(ComParam(params, nome, valor), Some(nome)) == ValorParam(valor)
    ensures AsKey(Str(outro)) != ChaveParam(nome) ==>
      ObterParams(ComParam(params, nome, valor), Some(outro)) == ObterParams(params, Some(outro))
  {
    Filtros.SanitizarTextoSimples(nome);
    GetPut(params, ChaveParam(nome), ValorParam(valor), AsKey(Str(nome)));
    GetPut(params, ChaveParam(nome), ValorParam(valor), AsKey(Str(outro)));
  }

  const TAG_TITLE: string := "tag-title"
  const TITULO_PAGINA: string := "html:titulo-pagina"
  const CONFIG_APLICATIVO: string := "config-aplicativo"
  const DIRETORIO_RELATIVO: string := "diretorio-relativo"

  /** The constructor's parameters: the default title, then the application settings and the relative directory. */
  function ParamsIniciais(configAplicativo: Value, relativo: string): seq<(Key, Value)>
  {
    Put(Put(PARAMS_PADRAO, StrKey(CONFIG_APLICATIVO), ValorParam(configAplicativo)), StrKey(DIRETORIO_RELATIVO), Str(relativo))
  }

  /** The constructor's parameters are those two adicionarParam calls make on the default title. */
  lemma ParamsIniciaisAdicionados(configAplicativo: Value, relativo: string)
    ensures ParamsIniciais(configAplicativo, relativo) ==
      ComParam(ComParam(PARAMS_PADRAO, CONFIG_APLICATIVO, configAplicativo), DIRETORIO_RELATIVO, Str(relativo))
  {
    ChaveConstante(CONFIG_APLICATIVO);
    ChaveConstante(DIRETORIO_RELATIVO);
  }

  /** The four parameter names the view sets itself are stored under themselves. */
  lemma ChaveConstante(nome: string)
    requires nome in {CONFIG_APLICATIVO, DIRETORIO_RELATIVO, TAG_TITLE, TITULO_PAGINA}
    ensures ChaveParam(nome) == StrKey(nome) && AsKey(Str(nome)) == StrKey(nome)
  {
    assert !IsDigit(nome[0]);
    assert forall i | 0 <= i < |nome| :: LetraDeNome(nome[i]);
    ChaveSimples(nome);
  }

  /** The characters of the view's own parameter names. */
  predicate LetraDeNome(c: char)
  {
    'a' <= c <= 'z' || c == '-' || c == ':'
  }

  /** A name with no markup, no quote and no leading digit is stored under itself. */
  lemma ChaveSimples(nome: string)
    requires |nome| >= 1 && !IsDigit(nome[0])
    requires '<' !in nome && '"' !in nome && '\'' !in nome
    ensures ChaveParam(nome) == StrKey(nome)
  {
    Filtros.SanitizarTextoSimples(nome);
  }

  /** The title tituloPagina stores: the sanitized title, null when it sanitizes to nothing. */
  function ValorTitulo(titulo: string): Value
  {
    var t := Filtros.SanitizarOuNulo(titulo);
    if t.None? then Null else Str(t.value)
  }

  /** tituloPagina: the sanitized title under both title names. */
  function ComTitulo(params: seq<(Key, Value)>, titulo: string): seq<(Key, Value)>
  {
    ComParam(ComParam(params, TAG_TITLE, ValorTitulo(titulo)), TITULO_PAGINA, ValorTitulo(titulo))
  }

  /** After tituloPagina both 'tag-title' and 'html:titulo-pagina' hold the sanitized title. */
  lemma TituloDefinido(params: seq<(Key, Value)>, titulo: string)
    ensures ObterParams(ComTitulo(params, titulo), Some(TAG_TITLE)) == ValorTitulo(titulo)
    ensures ObterParams(ComTitulo(params, titulo), Some(TITULO_PAGINA)) == ValorTitulo(titulo)
  {
    var v := ValorTitulo(titulo);
    assert ValorParam(v) == v;
    ChaveConstante(TAG_TITLE);
    ChaveConstante(TITULO_PAGINA);
    var p1 := ComParam(params, TAG_TITLE, v);
    GetPut(params, StrKey(TAG_TITLE), v, StrKey(TAG_TITLE));
    GetPut(p1, StrKey(TITULO_PAGINA), v, StrKey(TAG_TITLE));
    GetPut(p1, StrKey(TITULO_PAGINA), v, StrKey(TITULO_PAGINA));
  }

  // ------------------------------------------------------------------ areas

  predicate CharArea(c: char) { IsUpperAscii(c) || IsDigit(c) || c == '-' }

  predicate SoArea(s: string) { |s| >= 1 && forall i :: 0 <= i < |s| ==> CharArea(s[i]) }

  /** '~^[A-Z0-9\-]+$~': the name, optionally followed by one final newline. */
  predicate NomeArea(s: string)
  {
    SoArea(s) || (|s| >= 2 && s[|s| - 1] == '\n' && SoArea(s[..|s| - 1]))
  }

  /** The last index below fim - 1 where "/]" occurs in l. */
  function UltimoFecho(l: string, fim: nat): (r: Option<nat>)
    requires fim <= |l|
    ensures r.Some? ==> r.value + 2 <= fim && l[r.value] == '/' && l[r.value + 1] == ']'
    decreases fim
  {
    if fim < 2 then None
    else if l[fim - 2] == '/' && l[fim - 1] == ']' then Some(fim - 2)
    else UltimoFecho(l, fim - 1)
  }

  /** No "/]" starts after the one UltimoFecho finds. */
  lemma {:induction false} UltimoFechoUltimo(l: string, fim: nat, j: nat)
    requires fim <= |l| && j + 2 <= fim
    requires UltimoFecho(l, fim).None? || UltimoFecho(l, fim).value < j
    ensures !(l[j] == '/' && l[j + 1] == ']')
    decreases fim
  {
    if !(fim < 2 || (l[fim - 2] == '/' && l[fim - 1] == ']')) && j + 2 < fim {
      UltimoFechoUltimo(l, fim - 1, j);
    }
  }

  /** The first '[' at an index in [i, fim). */
  function PrimeiroColchete(l: string, i: nat, fim: int): (r: Option<nat>)
    ensures r.Some? ==> i <= r.value < fim && r.value < |l| && l[r.value] == '['
    decreases |l| - i
  {
    if i >= fim || i >= |l| then None
    else if l[i] == '[' then Some(i)
    else PrimeiroColchete(l, i + 1, fim)
  }

  /** No '[' comes before the one PrimeiroColchete finds. */
  lemma {:induction false} PrimeiroColchetePrimeiro(l: string, i: nat, fim: int, j: nat)
    requires i <= j < fim && j < |l|
    requires PrimeiroColchete(l, i, fim).None? || j < PrimeiroColchete(l, i, fim).value
    ensures l[j] != '['
    decreases |l| - i
  {
    if l[i] != '[' && i < j {
      PrimeiroColchetePrimeiro(l, i + 1, fim, j);
    }
  }

  /**
   * The capture of '~\[(.+)\/\]~' in one line (the dot does not cross a
   * newline): the greedy group runs to the last "/]" of the line, from the
   * first '[' that leaves it at least one character.
   */
  function CapturaLinha(l: string): (r: Option<string>)
    ensures r.Some? ==> |r.value| >= 1 && Occurs(l, Marcador(r.value))
  {
    var q := UltimoFecho(l, |l|);
    if q.None? then None
    else
      var p := PrimeiroColchete(l, 0, q.value - 1);
      if p.None? then None
      else
        var c := l[p.value + 1..q.value];
        assert l[p.value..q.value + 2] == "[" + c + "/]" by {
          assert l[p.value..q.value + 2] == [l[p.value]] + l[p.value + 1..q.value] + [l[q.value], l[q.value + 1]];
        }
        assert OccursAt(l, Marcador(c), p.value);
        Some(c)
  }

  /** The names preg_match_all finds, line after line. */
  function CapturasLinhas(linhas: seq<string>): (r: seq<string>)
    decreases |linhas|
  {
    if linhas == [] then []
    else
      var c := CapturaLinha(linhas[0]);
      if c.Some? then [c.value] + CapturasLinhas(linhas[1..]) else CapturasLinhas(linhas[1..])
  }

  /** Every name found is non-empty and is the capture of one of the lines. */
  lemma {:induction false} CapturasLinhasOrigem(linhas: seq<string>, n: string)
    requires n in CapturasLinhas(linhas)
    ensures |n| >= 1 && exists k :: 0 <= k < |linhas| && CapturaLinha(linhas[k]) == Some(n)
    decreases |linhas|
  {
    var c := CapturaLinha(linhas[0]);
    if c.Some? && n == c.value {
      assert CapturaLinha(linhas[0]) == Some(n);
    } else {
      CapturasLinhasOrigem(linhas[1..], n);
      var k :| 0 <= k < |linhas[1..]| && CapturaLinha(linhas[1..][k]) == Some(n);
      assert linhas[k + 1] == linhas[1..][k];
    }
  }

  /** The area names identificarAreas reads from a master page. */
  function Capturas(conteudo: string): seq<string>
  {
    CapturasLinhas(Split(conteudo, '\n'))
  }

  /** The names identificarAreas reads are non-empty and hold no newline. */
  lemma CapturasNomes(conteudo: string, n: string)
    requires n in Capturas(conteudo)
    ensures |n| >= 1 && '\n' !in n
  {
    var linhas := Split(conteudo, '\n');
    CapturasLinhasOrigem(linhas, n);
    var k :| 0 <= k < |linhas| && CapturaLinha(linhas[k]) == Some(n);
    CapturaSemQuebra(linhas[k]);
  }

  lemma CapturaSemQuebra(l: string)
    requires '\n' !in l
    ensures CapturaLinha(l).Some? ==> '\n' !in CapturaLinha(l).value
  {
    var c := CapturaLinha(l);
    if c.Some? {
      var q := UltimoFecho(l, |l|).value;
      var p := PrimeiroColchete(l, 0, q - 1).value;
      forall j | 0 <= j < |c.value| ensures c.value[j] != '\n' {
        assert c.value[j] == l[p + 1 + j];
      }
    }
  }

  /** The placeholder of an area in a master page. */
  function Marcador(area: string): string { "[" + area + "/]" }

  /** A line holding just a placeholder yields its name. */
  lemma CapturaMarcador(n: string)
    requires |n| >= 1
    ensures CapturaLinha(Marcador(n)) == Some(n)
  {
    var l := Marcador(n);
    assert l[|l| - 2] == '/' && l[|l| - 1] == ']';
    assert UltimoFecho(l, |l|) == Some(|l| - 2);
    assert l[0] == '[';
    assert PrimeiroColchete(l, 0, |l| - 3) == Some(0);
    assert l[1..|l| - 2] == n;
  }

  function Marcadores(areas: seq<string>): (r: seq<string>)
    ensures |r| == |areas| && forall i :: 0 <= i < |areas| ==> r[i] == Marcador(areas[i])
  {
    if areas == [] then [] else [Marcador(areas[0])] + Marcadores(areas[1..])
  }

  lemma {:induction false} CapturasMarcadores(areas: seq<string>)
    requires forall i :: 0 <= i < |areas| ==> |areas[i]| >= 1
    ensures CapturasLinhas(Marcadores(areas)) == areas
    decreases |areas|
  {
    if areas != [] {
      CapturaMarcador(areas[0]);
      assert Marcadores(areas)[1..] == Marcadores(areas[1..]);
      CapturasMarcadores(areas[1..]);
    }
  }

  /**
   * A master page listing one placeholder per line gives back exactly those
   * area names, in order.
   */
  lemma CapturasPagina(areas: seq<string>)
    requires |areas| >= 1
    requires forall i :: 0 <= i < |areas| ==> |areas[i]| >= 1 && '\n' !in areas[i]
    ensures Capturas(Join(Marcadores(areas), "\n")) == areas
  {
    var m := Marcadores(areas);
    forall i | 0 <= i < |m| ensures '\n' !in m[i] {
      assert m[i] == "[" + areas[i] + "/]";
    }
    SplitJoin(m, '\n');
    CapturasMarcadores(areas);
  }

  // ------------------------------------------------------------------ composition

  function TextoArea(a: Option<string>): string
  {
    if a.Some? then a.value else ""
  }

  /** The master page after replacing the placeholders of the first n areas, in list order. */
  function Substituicao(html: string, areas: seq<Option<string>>, total: string): string
    decreases |areas|
  {
    if areas == [] then html
    else
      var a := TextoArea(areas[|areas| - 1]);
      ReplaceAll(Substituicao(html, areas[..|areas| - 1], total), Marcador(a),
        VisaoAjudante.ExtrairAreaLayout(total, a))
  }

  /** No pattern starting with '[' occurs in a text without '['. */
  lemma SemColchete(y: string, pat: string)
    requires |pat| >= 1 && pat[0] == '[' && '[' !in y
    ensures !Occurs(y, pat)
  {
    forall i | 0 <= i <= |y| - |pat| ensures !OccursAt(y, pat, i) {
      assert y[i..i + |pat|][0] == y[i];
    }
  }

  /** str_replace on a text holding the pattern once, with no '[' around it. */
  lemma {:induction false} ReplaceUnico(x: string, pat: string, y: string, rep: string)
    requires |pat| >= 1 && pat[0] == '[' && '[' !in x && '[' !in y
    ensures ReplaceAll(x + pat + y, pat, rep) == x + rep + y
    decreases |x|
  {
    var s := x + pat + y;
    if x == [] {
      assert s[..|pat|] == pat && s[|pat|..] == y;
      SemColchete(y, pat);
      ReplaceAbsent(y, pat, rep);
    } else {
      assert s[..|pat|][0] == x[0];
      assert s[1..] == x[1..] + pat + y;
      ReplaceUnico(x[1..], pat, y, rep);
      assert [x[0]] + (x[1..] + rep + y) == x + rep + y;
    }
  }

  /** A master page without placeholders is shown as it is. */
  lemma {:induction false} SubstituicaoSemMarcador(html: string, areas: seq<Option<string>>, total: string)
    requires '[' !in html
    ensures Substituicao(html, areas, total) == html
    decreases |areas|
  {
    if areas != [] {
      SubstituicaoSemMarcador(html, areas[..|areas| - 1], total);
      var a := TextoArea(areas[|areas| - 1]);
      SemColchete(html, Marcador(a));
      ReplaceAbsent(html, Marcador(a), VisaoAjudante.ExtrairAreaLayout(total, a));
    }
  }

  /** The placeholder of a single area is replaced by that area of the templates. */
  lemma SubstituicaoUmaArea(x: string, area: string, y: string, total: string)
    requires '[' !in x && '[' !in y
    ensures Substituicao(x + Marcador(area) + y, [Some(area)], total) ==
      x + VisaoAjudante.ExtrairAreaLayout(total, area) + y
  {
    assert [Some(area)][..0] == [];
    ReplaceUnico(x, Marcador(area), y, VisaoAjudante.ExtrairAreaLayout(total, area));
  }

  /** The loop of mostrarConteudo: one str_replace per area, in the order of the list. */
  method SubstituirAreas(mestra: string, areas: seq<Option<string>>, total: string) returns (html: string)
    ensures html == Substituicao(mestra, areas, total)
  {
    html := mestra;
    var i := 0;
    while i < |areas|
      invariant 0 <= i <= |areas|
      invariant html == Substituicao(mestra, areas[..i], total)
    {
      var a := TextoArea(areas[i]);
      assert areas[..i + 1][..i] == areas[..i];
      html := ReplaceAll(html, Marcador(a), VisaoAjudante.ExtrairAreaLayout(total, a));
      i := i + 1;
    }
    assert areas[..i] == areas;
  }

  /** The loop of carregarArquivosExternos over one list: its block. */
  method Emitir(tipo: Tipo, l: seq<string>) returns (c: string)
    ensures c == Bloco(tipo, l)
  {
    c := "";
    if |l| > 0 {
      var tags := "";
      var i := 0;
      while i < |l|
        invariant 0 <= i <= |l|
        invariant tags == Tags(tipo, l[..i])
      {
        TagsPrefixo(tipo, l, i);
        tags := tags + Tag(tipo, l[i]);
        i := i + 1;
      }
      assert l[..i] == l;
      c := Abertura(tipo) + tags + Fechamento(tipo);
    }
  }

  predicate VazioTexto(s: string) { s == "" || s == "0" }

  // ------------------------------------------------------------------ the class

  class Visao {
    const diretorioVisoes: string
    var templates: seq<(int, string)>
    /** PHP's next free integer key of $templates: one past the largest key ever stored. */
    var proximaChave: int
    var arquivosCss: seq<string>
    var arquivosJs: seq<string>
    var params: seq<(Key, Value)>
    var areasLayout: seq<Option<string>>
    var conteudoPaginaMestra: Option<string>
    var conteudoTemplates: Option<string>
    var conteudoArquivosExternos: Option<string>

    /** The template list is key-sorted and every key lies below the next free one. */
    predicate Valid()
      reads this
    {
      Crescente(templates) && ChavesAbaixo(templates, proximaChave)
    }

    /**
     * The view over a views directory: default areas, no template, no asset,
     * and the parameters 'config-aplicativo' and 'diretorio-relativo' added to
     * the default title.
     */
    constructor (diretorio: string, configAplicativo: Value, relativo: string)
      ensures Valid()
      ensures diretorioVisoes == diretorio && templates == [] && proximaChave == 0
      ensures arquivosCss == [] && arquivosJs == [] && areasLayout == AREAS_PADRAO
      ensures params == ParamsIniciais(configAplicativo, relativo)
      ensures conteudoPaginaMestra.None? && conteudoTemplates.None? && conteudoArquivosExternos.None?
    {
      diretorioVisoes := diretorio;
      templates := [];
      proximaChave := 0;
      arquivosCss := [];
      arquivosJs := [];
      areasLayout := AREAS_PADRAO;
      params := ParamsIniciais(configAplicativo, relativo);
      conteudoPaginaMestra := None;
      conteudoTemplates := None;
      conteudoArquivosExternos := None;
    }

    /** adicionarAreaLayout: the name when it is made of [A-Z0-9-], else null, goes last. */
    method AdicionarAreaLayout(area: string)
      modifies this
      ensures areasLayout == old(areasLayout) + [if NomeArea(area) then Some(area) else None]
      ensures |areasLayout| == |old(areasLayout)| + 1
      ensures params == old(params) && templates == old(templates) && arquivosJs == old(arquivosJs)
    {
      areasLayout := areasLayout + [if NomeArea(area) then Some(area) else None];
    }

    /**
     * carregarPaginaMestra with the rendered master page as input:
     * identificarAreas replaces the areas with the placeholders found, and
     * keeps them when there is none.
     */
    method CarregarPaginaMestra(conteudo: string)
      modifies this
      ensures conteudoPaginaMestra == Some(conteudo)
      ensures Capturas(conteudo) != [] ==> areasLayout == Seq2Opt(Capturas(conteudo))
      ensures Capturas(conteudo) == [] ==> areasLayout == old(areasLayout)
      ensures templates == old(templates) && proximaChave == old(proximaChave) && params == old(params)
      ensures arquivosCss == old(arquivosCss) && arquivosJs == old(arquivosJs)
      ensures conteudoTemplates == old(conteudoTemplates) && conteudoArquivosExternos == old(conteudoArquivosExternos)
    {
      conteudoPaginaMestra := Some(conteudo);
      var encontradas := Capturas(conteudo);
      if encontradas != [] {
        areasLayout := Seq2Opt(encontradas);
      }
    }

    /**
     * adicionarTemplate(template, ordem, procurar, opcional): a template that
     * cannot be found throws 1404 unless it is optional, in which case nothing
     * changes; one that is found goes under key ordem (key-sorted) when
     * ordem > -1, or last under the next free key.
     */
    method AdicionarTemplate(template: string, ordem: int, procurar: bool, opcional: bool, existe: set<string>)
      returns (r: Outcome<()>)
      requires Valid()
      modifies this
      ensures Valid()
      ensures var c := Localizar(diretorioVisoes, template, procurar, existe);
        (c.None? && !opcional ==> r.Throw? && r.code == NOT_FOUND) &&
        (c.None? ==> templates == old(templates) && proximaChave == old(proximaChave)) &&
        (c.Some? && ordem > -1 ==>
          r.Ok? && templates == Armazenar(old(templates), ordem, c.value) &&
          proximaChave == if ordem >= old(proximaChave) then ordem + 1 else old(proximaChave)) &&
        (c.Some? && ordem <= -1 ==>
          r.Ok? && templates == old(templates) + [(old(proximaChave), c.value)] &&
          proximaChave == old(proximaChave) + 1)
      ensures r.Ok? <==> Localizar(diretorioVisoes, template, procurar, existe).Some? || opcional
      ensures params == old(params) && arquivosCss == old(arquivosCss) && arquivosJs == old(arquivosJs)
      ensures areasLayout == old(areasLayout)
    {
      var caminho := CaminhoTemplate(diretorioVisoes, template);
      var achado: Option<string> := Some(caminho);
      if caminho !in existe {
        if procurar {
          achado := Arquivos.ProcurarDiretoriosAntecessores(caminho, diretorioVisoes, NIVEIS_BUSCA, existe);
        }
        if achado.None? || !procurar {
          if !opcional {
            return Throw(NOT_FOUND, "O template <b>" + template + "</b> não foi localizado ou não é um arquivo de template válido.");
          }
          return Ok(());
        }
      }
      if ordem > -1 {
        ArmazenarCrescente(templates, ordem, achado.value);
        ArmazenarAbaixo(templates, ordem, achado.value, proximaChave);
        templates := Armazenar(templates, ordem, achado.value);
        if ordem >= proximaChave {
          proximaChave := ordem + 1;
        }
      } else {
        templates := templates + [(proximaChave, achado.value)];
        proximaChave := proximaChave + 1;
      }
      r := Ok(());
    }

    /** removerTemplate(template): every entry the name selects goes, the others stay in order. */
    method RemoverTemplate(template: string)
      requires Valid()
      modifies this
      ensures Valid()
      ensures templates == SemTemplate(old(templates), template) && proximaChave == old(proximaChave)
      ensures params == old(params) && arquivosCss == old(arquivosCss) && arquivosJs == old(arquivosJs)
      ensures areasLayout == old(areasLayout)
    {
      var t := templates;
      var mantidos: seq<(int, string)> := [];
      var i := 0;
      while i < |t|
        invariant 0 <= i <= |t|
        invariant mantidos == SemTemplate(t[..i], template)
      {
        assert t[..i + 1][..i] == t[..i];
        if !CasaTemplate(template, t[i].1) {
          mantidos := mantidos + [t[i]];
        }
        i := i + 1;
      }
      assert t[..i] == t;
      SemTemplateOrdem(t, template, proximaChave);
      templates := mantidos;
    }

    /**
     * adicionarJS(js, ordem) as written: a path already listed (as given, unprefixed) adds
     * nothing; any other reaches the call to Vetores::adicionarValorPos, which is not defined,
     * so PHP raises an Error before anything is stored.
     */
    method AdicionarJS(js: string, ordem: Option<nat>, relativo: string) returns (r: Outcome<()>)
      ensures r.Ok? <==> js in arquivosJs
      ensures r.Throw? ==> r == Throw(ERRO_PHP, MSG_SEM_ADICIONAR_VALOR_POS)
    {
      if js !in arquivosJs {
        return Throw(ERRO_PHP, MSG_SEM_ADICIONAR_VALOR_POS);
      }
      r := Ok(());
    }

    /**
     * adicionarJS as evidently intended: a path not yet listed joins the JS list, prefixed, at
     * its position; nothing else changes.
     */
    method AdicionarJSCorrigido(js: string, ordem: Option<nat>, relativo: string)
      modifies this
      ensures js in old(arquivosJs) ==> arquivosJs == old(arquivosJs)
      ensures js !in old(arquivosJs) ==> arquivosJs == AdicionarValorPos(old(arquivosJs), relativo + js, ordem)
      ensures js !in old(arquivosJs) ==> relativo + js in arquivosJs
      ensures arquivosCss == old(arquivosCss) && templates == old(templates) && proximaChave == old(proximaChave)
      ensures params == old(params) && areasLayout == old(areasLayout)
    {
      if js !in arquivosJs {
        arquivosJs := AdicionarValorPos(arquivosJs, relativo + js, ordem);
        assert multiset(arquivosJs)[relativo + js] > 0;
      }
    }

    /**
     * adicionarCSS(css, ordem) as written: a path already in the CSS list adds nothing; any
     * other reaches the call to the undefined Vetores::adicionarValorPos and PHP raises an
     * Error before its result would be stored (into the JS list).
     */
    method AdicionarCSS(css: string, ordem: Option<nat>, relativo: string) returns (r: Outcome<()>)
      ensures r.Ok? <==> css in arquivosCss
      ensures r.Throw? ==> r == Throw(ERRO_PHP, MSG_SEM_ADICIONAR_VALOR_POS)
    {
      if css !in arquivosCss {
        return Throw(ERRO_PHP, MSG_SEM_ADICIONAR_VALOR_POS);
      }
      r := Ok(());
    }

    /**
     * adicionarCSS as evidently intended: the new file joins the CSS list and
     * the JS list is left alone.
     */
    method AdicionarCSSCorrigido(css: string, ordem: Option<nat>, relativo: string)
      modifies this
      ensures css in old(arquivosCss) ==> arquivosCss == old(arquivosCss)
      ensures css !in old(arquivosCss) ==> arquivosCss == AdicionarValorPos(old(arquivosCss), relativo + css, ordem)
      ensures css !in old(arquivosCss) ==> relativo + css in arquivosCss
      ensures arquivosJs == old(arquivosJs) && templates == old(templates) && proximaChave == old(proximaChave)
      ensures params == old(params) && areasLayout == old(areasLayout)
    {
      if css !in arquivosCss {
        arquivosCss := AdicionarValorPos(arquivosCss, relativo + css, ordem);
        assert multiset(arquivosCss)[relativo + css] > 0;
      }
    }

    /** removerJS(js): the first occurrence goes. */
    method RemoverJS(js: string)
      modifies this
      ensures arquivosJs == RemoverPrimeiro(old(arquivosJs), js)
      ensures arquivosCss == old(arquivosCss) && templates == old(templates) && proximaChave == old(proximaChave)
      ensures params == old(params) && areasLayout == old(areasLayout)
    {
      arquivosJs := RemoverPrimeiro(arquivosJs, js);
    }

    /** removerCSS(css): the first occurrence goes. */
    method RemoverCSS(css: string)
      modifies this
      ensures arquivosCss == RemoverPrimeiro(old(arquivosCss), css)
      ensures arquivosJs == old(arquivosJs) && templates == old(templates) && proximaChave == old(proximaChave)
      ensures params == old(params) && areasLayout == old(areasLayout)
    {
      arquivosCss := RemoverPrimeiro(arquivosCss, css);
    }

    /**
     * carregarArquivosTema with the theme's file lists as inputs: each file,
     * prefixed with the relative path, goes after the files already listed.
     */
    method CarregarArquivosTema(relativo: string, temaCss: seq<string>, temaJs: seq<string>)
      modifies this
      ensures arquivosCss == old(arquivosCss) + Prefixar(relativo, temaCss)
      ensures arquivosJs == old(arquivosJs) + Prefixar(relativo, temaJs)
      ensures templates == old(templates) && proximaChave == old(proximaChave) && params == old(params)
      ensures areasLayout == old(areasLayout) && conteudoPaginaMestra == old(conteudoPaginaMestra)
      ensures conteudoTemplates == old(conteudoTemplates) && conteudoArquivosExternos == old(conteudoArquivosExternos)
    {
      arquivosCss := arquivosCss + Prefixar(relativo, temaCss);
      arquivosJs := arquivosJs + Prefixar(relativo, temaJs);
    }

    /** adicionarParam(nome, valor) with FILTER_DEFAULT. */
    method AdicionarParam(nome: string, valor: Value)
      modifies this
      ensures params == ComParam(old(params), nome, valor)
      ensures templates == old(templates) && proximaChave == old(proximaChave)
      ensures arquivosCss == old(arquivosCss) && arquivosJs == old(arquivosJs) && areasLayout == old(areasLayout)
    {
      params := ComParam(params, nome, valor);
    }

    /** tituloPagina(titulo). */
    method TituloPagina(titulo: string)
      modifies this
      ensures params == ComTitulo(old(params), titulo)
      ensures templates == old(templates) && proximaChave == old(proximaChave)
      ensures arquivosCss == old(arquivosCss) && arquivosJs == old(arquivosJs) && areasLayout == old(areasLayout)
    {
      AdicionarParam(TAG_TITLE, ValorTitulo(titulo));
      AdicionarParam(TITULO_PAGINA, ValorTitulo(titulo));
    }

    /** carregarArquivosExternos: the CSS block then the JS block appended to what was there. */
    method CarregarArquivosExternos()
      modifies this
      ensures conteudoArquivosExternos == Some(old(TextoArea(conteudoArquivosExternos)) + Externos(arquivosCss, arquivosJs))
      ensures arquivosCss == old(arquivosCss) && arquivosJs == old(arquivosJs)
      ensures templates == old(templates) && proximaChave == old(proximaChave) && params == old(params)
      ensures areasLayout == old(areasLayout) && conteudoPaginaMestra == old(conteudoPaginaMestra)
      ensures conteudoTemplates == old(conteudoTemplates)
    {
      var css := Emitir(Css, arquivosCss);
      var js := Emitir(Js, arquivosJs);
      assert css + js == Externos(arquivosCss, arquivosJs);
      conteudoArquivosExternos := Some(TextoArea(conteudoArquivosExternos) + (css + js));
    }

    /**
     * mostrarConteudo, with the theme's files and the rendered master page and
     * templates as inputs: the theme's files are added; what was not loaded yet
     * is loaded; the result is '' unless both the master page and the
     * templates are non-empty, and otherwise the master page with every area
     * placeholder replaced by that area of the templates and external files.
     */
    method MostrarConteudo(relativo: string, temaCss: seq<string>, temaJs: seq<string>, mestra: string, htmlTemplates: string)
      returns (html: string)
      modifies this
      ensures conteudoPaginaMestra.Some? && conteudoTemplates.Some? && conteudoArquivosExternos.Some?
      ensures old(conteudoPaginaMestra).Some? ==> conteudoPaginaMestra == old(conteudoPaginaMestra)
      ensures old(conteudoPaginaMestra).None? ==> conteudoPaginaMestra == Some(mestra)
      ensures old(conteudoTemplates).Some? ==> conteudoTemplates == old(conteudoTemplates)
      ensures old(conteudoTemplates).None? ==> conteudoTemplates == Some(htmlTemplates)
      ensures arquivosCss == old(arquivosCss) + Prefixar(relativo, temaCss)
      ensures arquivosJs == old(arquivosJs) + Prefixar(relativo, temaJs)
      ensures old(conteudoArquivosExternos).Some? ==> conteudoArquivosExternos == old(conteudoArquivosExternos)
      ensures old(conteudoArquivosExternos).None? ==> conteudoArquivosExternos == Some(Externos(arquivosCss, arquivosJs))
      ensures VazioTexto(conteudoPaginaMestra.value) || VazioTexto(conteudoTemplates.value) ==> html == ""
      ensures !VazioTexto(conteudoPaginaMestra.value) && !VazioTexto(conteudoTemplates.value) ==>
        html == Substituicao(conteudoPaginaMestra.value, areasLayout, conteudoTemplates.value + conteudoArquivosExternos.value)
      ensures templates == old(templates) && proximaChave == old(proximaChave) && params == old(params)
    {
      CarregarArquivosTema(relativo, temaCss, temaJs);
      if conteudoPaginaMestra.None? {
        CarregarPaginaMestra(mestra);
      }
      if conteudoTemplates.None? {
        conteudoTemplates := Some(htmlTemplates);
      }
      if conteudoArquivosExternos.None? {
        CarregarArquivosExternos();
        assert "" + Externos(arquivosCss, arquivosJs) == Externos(arquivosCss, arquivosJs);
      }
      html := "";
      var pm, ct := conteudoPaginaMestra.value, conteudoTemplates.value;
      if !VazioTexto(pm) && !VazioTexto(ct) {
        html := SubstituirAreas(pm, areasLayout, ct + conteudoArquivosExternos.value);
      }
    }
  }

  function Seq2Opt(s: seq<string>): (r: seq<Option<string>>)
    ensures |r| == |s| && forall i :: 0 <= i < |s| ==> r[i] == Some(s[i])
  {
    if s == [] then [] else [Some(s[0])] + Seq2Opt(s[1..])
  }

  /** Storing under a key keeps every key below a bound that exceeds it and the old keys. */
  lemma ArmazenarAbaixo(t: seq<(int, string)>, k: int, v: string, prox: int)
    requires Crescente(t) && ChavesAbaixo(t, prox)
    ensures ChavesAbaixo(Armazenar(t, k, v), if k >= prox then k + 1 else prox)
  {
    var r := Armazenar(t, k, v);
    ArmazenarMembros(t, k, v);
    forall i | 0 <= i < |r| ensures r[i].0 < (if k >= prox then k + 1 else prox) {
      assert r[i] in r;
      if r[i] != (k, v) {
        var j :| 0 <= j < |t| && t[j] == r[i];
      }
    }
  }
}
