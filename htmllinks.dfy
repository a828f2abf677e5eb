// DLX\Ajudantes\HTMLLinks (dlx/ajudantes/htmllinks.ajudante.php): links
// rendered from named configurations. A static table maps each kind of link
// (detalhes, inserir, editar, excluir, and the fallback 'desconhecido') to
// its default attributes; link() merges the caller's attributes over them,
// sets the destination the chosen opening mode needs, the title and the
// common class; linkArray() renders one link per configured entry.

module HTMLLinks {
  import opened Wrappers
  import opened Text
  import opened Assoc
  import opened Vetores
  import Filtros

  /** The configurations the helper starts with. */
  function LinksPadrao(): seq<(string, Atributos)>
  {
    [("desconhecido", [("class", Some("com-icone -desconhecido"))]),
     ("detalhes", [("class", Some("com-icone -detalhes"))]),
     ("inserir", [("class", Some("com-icone -inserir"))]),
     ("editar", [("class", Some("com-icone -editar"))]),
     ("excluir", [("data-ajax", Some("1")), ("data-acao", Some("excluir-registro")), ("class", Some("com-icone -excluir"))])]
  }

  /** The key novoLink stores under: the sanitized name, '' when that is empty (a null key). */
  function ChaveLink(nome: string): string
  {
    Filtros.SanitizarOuNulo(nome).GetOr("")
  }

  // ---------------------------------------------------------------- link

  /** The destination: 'popup' loads the address through the page's script, any other mode links to it. */
  function Destino(c: Atributos, href: string, popup: bool): Atributos
  {
    if popup then Put(Put(Put(c, "href", Some("javascript:")), "data-acao", Some("carregar-form")), "data-acao-param-html", Some(href))
    else Put(c, "href", Some(href))
  }

  function ComTitulo(c: Atributos, title: Option<string>): Atributos
  {
    if title.Some? then Put(c, "title", title) else c
  }

  /** The common class goes after a configured class (even a null one), or becomes the class. */
  function ComClasse(c: Atributos, classe: string): Atributos
  {
    match Get(c, "class")
    case Some(v) => Put(c, "class", Some(v.GetOr("") + " " + classe))
    case None => Put(c, "class", Some(classe))
  }

  /** The attributes of link(): configuration, caller's attributes, destination, title, class. */
  function AtributosLink(base: Atributos, params: Atributos, href: string, title: Option<string>, popup: bool, classe: string): Atributos
  {
    ComClasse(ComTitulo(Destino(PutAll(base, params), href, popup), title), classe)
  }

  /** The value link() leaves in each attribute, key by key. */
  function ValorLink(base: Atributos, params: Atributos, href: string, title: Option<string>, popup: bool, classe: string, k: string): Option<Option<string>>
  {
    var c := PutAll(base, params);
    if k == "class" then Some(Some(match Get(c, "class") case Some(v) => v.GetOr("") + " " + classe case None => classe))
    else if k == "title" && title.Some? then Some(title)
    else if k == "href" then Some(Some(if popup then "javascript:" else href))
    else if popup && k == "data-acao" then Some(Some("carregar-form"))
    else if popup && k == "data-acao-param-html" then Some(Some(href))
    else Get(c, k)
  }

  lemma DestinoGet(c: Atributos, href: string, popup: bool, k: string)
    ensures Get(Destino(c, href, popup), k) ==
      if k == "href" then Some(Some(if popup then "javascript:" else href))
      else if popup && k == "data-acao" then Some(Some("carregar-form"))
      else if popup && k == "data-acao-param-html" then Some(Some(href))
      else Get(c, k)
  {
    if popup {
      var c1 := Put(c, "href", Some("javascript:"));
      var c2 := Put(c1, "data-acao", Some("carregar-form"));
      GetPut(c, "href", Some("javascript:"), k);
      GetPut(c1, "data-acao", Some("carregar-form"), k);
      GetPut(c2, "data-acao-param-html", Some(href), k);
    } else {
      GetPut(c, "href", Some(href), k);
    }
  }

  lemma ComTituloGet(c: Atributos, title: Option<string>, k: string)
    ensures Get(ComTitulo(c, title), k) == if k == "title" && title.Some? then Some(title) else Get(c, k)
  {
    if title.Some? {
      GetPut(c, "title", title, k);
    }
  }

  lemma ComClasseGet(c: Atributos, classe: string, k: string)
    ensures Get(ComClasse(c, classe), k) ==
      if k == "class" then Some(Some(match Get(c, "class") case Some(v) => v.GetOr("") + " " + classe case None => classe))
      else Get(c, k)
  {
    match Get(c, "class")
    case Some(v) => GetPut(c, "class", Some(v.GetOr("") + " " + classe), k);
    case None => GetPut(c, "class", Some(classe), k);
  }

  /**
   * Every attribute of a link: the class always ends with the common class;
   * a given title wins; href (and, for 'popup', data-acao and
   * data-acao-param-html) follow the opening mode; every other attribute is
   * the caller's, or else the configuration's.
   */
  lemma AtributosLinkGet(base: Atributos, params: Atributos, href: string, title: Option<string>, popup: bool, classe: string, k: string)
    ensures Get(AtributosLink(base, params, href, title, popup, classe), k) == ValorLink(base, params, href, title, popup, classe, k)
  {
    var c := PutAll(base, params);
    var d := Destino(c, href, popup);
    var t := ComTitulo(d, title);
    ComClasseGet(t, classe, k);
    ComTituloGet(d, title, k);
    ComTituloGet(d, title, "class");
    DestinoGet(c, href, popup, k);
    DestinoGet(c, href, popup, "class");
  }

  /** Apart from the attributes link() sets, the caller's attributes win over the configuration. */
  lemma ValorLinkOutros(base: Atributos, params: Atributos, href: string, title: Option<string>, popup: bool, classe: string, k: string)
    requires k !in {"class", "title", "href", "data-acao", "data-acao-param-html"}
    ensures ValorLink(base, params, href, title, popup, classe, k) ==
            match LastValue(params, k) case Some(v) => Some(v) case None => Get(base, k)
  {
    GetPutAll(base, params, k);
  }

  // ---------------------------------------------------------------- linkArray

  /**
   * One entry of the array given to linkArray when it is an array: its
   * string (or null) entries, and 'outros-params' when present.
   */
  datatype ConfLink = ConfLink(campos: seq<(string, Option<string>)>, outros: Option<Atributos>)

  /** An entry of linkArray's input: a configuration array, or anything else (null, a scalar). */
  datatype ItemLink = NaoArray | Array(conf: ConfLink)

  predicate ArrayVazio(c: ConfLink) { c.campos == [] && c.outros.None? }

  /** Vetores::arrayMulti on the input: some entry is a non-empty array. */
  predicate Multi(links: seq<(string, ItemLink)>)
  {
    exists i :: 0 <= i < |links| && links[i].1.Array? && !ArrayVazio(links[i].1.conf)
  }

  /** $conf['x'] read as a string: a missing key and a null value are both null. */
  function Campo(c: ConfLink, nome: string): Option<string>
  {
    match Get(c.campos, nome)
    case Some(v) => v
    case None => None
  }

  /** The static table of configurations. */
  type Tabela = seq<(string, Atributos)>

  /** selecionarConfiguracao: the named configuration, or 'desconhecido' for an unknown name. */
  function Selecionar(t: Tabela, conf: string): (r: Atributos)
    ensures HasKey(t, conf) ==> Get(t, conf) == Some(r)
    ensures !HasKey(t, conf) && HasKey(t, "desconhecido") ==> Get(t, "desconhecido") == Some(r)
  {
    match Get(t, conf)
    case Some(c) => c
    case None => Get(t, "desconhecido").GetOr([])
  }

  /** link: an anchor with AtributosLink's attributes around the text. */
  function Link(t: Tabela, classe: string, conf: string, href: string, texto: string, title: Option<string>, params: Atributos, abrirEm: string): (r: string)
    ensures StartsWith(r, "<a ") && EndsWith(r, ">" + texto + "</a>")
  {
    Elemento("<a ", AtributosLink(Selecionar(t, conf), params, href, title, abrirEm == "popup", classe), texto, "</a>")
  }

  /** What linkArray renders for one entry: the link of a configuration array, nothing otherwise. */
  function LinkDe(t: Tabela, classe: string, x: (string, ItemLink)): string
  {
    match x.1
    case NaoArray => ""
    case Array(c) =>
      Link(t, classe, x.0, Campo(c, "url").GetOr(""), Campo(c, "texto").GetOr(""), Campo(c, "title"),
           c.outros.GetOr([]), Campo(c, "abrir-links-em").GetOr("normal"))
  }

  /** The pieces of markup, one after the other. */
  function Concat(ps: seq<string>): string
    decreases |ps|
  {
    if ps == [] then "" else Concat(ps[..|ps| - 1]) + ps[|ps| - 1]
  }

  lemma {:induction false} ConcatAppend(p: seq<string>, q: seq<string>)
    ensures Concat(p + q) == Concat(p) + Concat(q)
    decreases |q|
  {
    if q == [] {
      assert p + q == p;
    } else {
      var pq := p + q;
      assert pq[..|pq| - 1] == p + q[..|q| - 1];
      assert pq[|pq| - 1] == q[|q| - 1];
      ConcatAppend(p, q[..|q| - 1]);
    }
  }

  /** The link of each entry, in order. */
  function Pecas(t: Tabela, classe: string, links: seq<(string, ItemLink)>): (r: seq<string>)
    ensures |r| == |links|
    ensures forall i :: 0 <= i < |links| ==> r[i] == LinkDe(t, classe, links[i])
  {
    seq(|links|, i requires 0 <= i < |links| => LinkDe(t, classe, links[i]))
  }

  /** The links of the entries, in order. */
  function Links(t: Tabela, classe: string, links: seq<(string, ItemLink)>): (r: string)
  {
    Concat(Pecas(t, classe, links))
  }

  /** Concatenating one more piece appends it. */
  lemma ConcatPrefixo(ps: seq<string>, i: int)
    requires 0 <= i < |ps|
    ensures Concat(ps[..i + 1]) == Concat(ps[..i]) + ps[i]
  {
    assert ps[..i + 1][..i] == ps[..i];
  }

  /** An entry that is not an array yields nothing; an array yields exactly its link. */
  lemma LinksUm(t: Tabela, classe: string, tipo: string, c: ConfLink)
    ensures Links(t, classe, [(tipo, NaoArray)]) == ""
    ensures Links(t, classe, [(tipo, Array(c))]) ==
      Link(t, classe, tipo, Campo(c, "url").GetOr(""), Campo(c, "texto").GetOr(""), Campo(c, "title"),
           c.outros.GetOr([]), Campo(c, "abrir-links-em").GetOr("normal"))
  {
    var p, q := Pecas(t, classe, [(tipo, NaoArray)]), Pecas(t, classe, [(tipo, Array(c))]);
    assert p[..0] == [] && q[..0] == [];
    assert Concat(p) == Concat(p[..0]) + p[0];
    assert Concat(q) == Concat(q[..0]) + q[0];
  }

  class HTMLLinks {
    /** The static $conf_links. */
    var confLinks: Tabela
    /** The public static $classe added to every link. */
    var classe: string

    /** 'desconhecido' is always configured: novoLink adds or replaces, never removes. */
    predicate Valid()
      reads this
    {
      HasKey(confLinks, "desconhecido")
    }

    constructor()
      ensures confLinks == LinksPadrao() && classe == "link-person"
      ensures Valid()
    {
      confLinks := LinksPadrao();
      classe := "link-person";
      new;
      assert confLinks[0].0 == "desconhecido";
    }

    /** novoLink: registers a configuration under the sanitized name. */
    method NovoLink(nome: string, conf: Atributos)
      requires Valid()
      modifies this
      ensures confLinks == Put(old(confLinks), ChaveLink(nome), conf)
      ensures classe == old(classe)
      ensures Valid()
    {
      GetPut(confLinks, ChaveLink(nome), conf, "desconhecido");
      confLinks := Put(confLinks, ChaveLink(nome), conf);
    }

    /** linkArray: '' unless some entry is a non-empty array; then the links, passed through func when given. */
    method LinkArray(links: seq<(string, ItemLink)>, func: Option<string -> string>) returns (r: string)
      requires Valid()
      ensures !Multi(links) ==> r == (if func.Some? then func.value("") else "")
      ensures Multi(links) ==> r == (if func.Some? then func.value(Links(confLinks, classe, links)) else Links(confLinks, classe, links))
    {
      var acc := "";
      if Multi(links) {
        ghost var ps := Pecas(confLinks, classe, links);
        var i := 0;
        while i < |links|
          invariant 0 <= i <= |links|
          invariant acc == Concat(ps[..i])
        {
          ConcatPrefixo(ps, i);
          acc := acc + LinkDe(confLinks, classe, links[i]);
          i := i + 1;
        }
        assert ps[..|links|] == ps;
      }
      r := if func.Some? then func.value(acc) else acc;
    }
  }
}
