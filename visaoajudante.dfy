// DLX\Ajudantes\Visao (dlx/ajudantes/visao.ajudante.php): the extraction of a
// layout area from rendered templates, the relative path back to the root, the
// HTML base, and the static translation table with its lookup.

module VisaoAjudante {
  import opened Wrappers
  import opened Text

  // ------------------------------------------------------------ extrairAreaLayout

  /** The first index at or after i where p occurs in s, if any. */
  function Procurar(s: string, p: string, i: nat): (r: Option<nat>)
    ensures r.Some? ==> i <= r.value && r.value + |p| <= |s|
    decreases |s| - i
  {
    if i + |p| > |s| then None
    else if OccursAt(s, p, i) then Some(i)
    else Procurar(s, p, i + 1)
  }

  /** The index found is an occurrence with none before it; none found means none at all. */
  lemma {:induction false} ProcurarSpec(s: string, p: string, i: nat)
    ensures Procurar(s, p, i).Some? ==> i <= Procurar(s, p, i).value && OccursAt(s, p, Procurar(s, p, i).value)
    ensures Procurar(s, p, i).Some? ==> forall j :: i <= j < Procurar(s, p, i).value ==> !OccursAt(s, p, j)
    ensures Procurar(s, p, i).None? ==> forall j :: i <= j ==> !OccursAt(s, p, j)
    decreases |s| - i
  {
    if i + |p| <= |s| && !OccursAt(s, p, i) {
      ProcurarSpec(s, p, i + 1);
    }
  }

  /**
   * The captures of preg_match_all('~(?s)\[AREA\](.*?)\[/AREA\]~') from index
   * i on: the text between an opening tag and the first closing tag after it;
   * the scan resumes after that closing tag.
   */
  function Blocos(s: string, abre: string, fecha: string, i: nat): (r: seq<string>)
    requires |abre| >= 1 && |fecha| >= 1
    decreases |s| - i
  {
    match Procurar(s, abre, i)
    case None => []
    case Some(p) =>
      match Procurar(s, fecha, p + |abre|)
      case None => []
      case Some(q) => [s[p + |abre|..q]] + Blocos(s, abre, fecha, q + |fecha|)
  }

  /** Every block found is wrapped by the tags in the content, and holds no closing tag. */
  predicate Envolvido(s: string, abre: string, fecha: string, b: string)
  {
    Occurs(s, abre + b + fecha) && !Occurs(b, fecha)
  }

  lemma {:induction false} BlocosEnvolvidos(s: string, abre: string, fecha: string, i: nat)
    requires |abre| >= 1 && |fecha| >= 1
    ensures forall b :: b in Blocos(s, abre, fecha, i) ==> Envolvido(s, abre, fecha, b)
    decreases |s| - i
  {
    var pa := Procurar(s, abre, i);
    if pa.Some? {
      var p := pa.value;
      var pf := Procurar(s, fecha, p + |abre|);
      if pf.Some? {
        var q := pf.value;
        var b0, d := s[p + |abre|..q], q + |fecha|;
        Desdobrar(s, abre, fecha, i, p, q, b0, d);
        PrimeiroBlocoEnvolvido(s, abre, fecha, i, p, q);
        BlocosEnvolvidos(s, abre, fecha, d);
        EnvolvidosCons(s, abre, fecha, b0, Blocos(s, abre, fecha, d));
      }
    }
  }

  lemma EnvolvidosCons(s: string, abre: string, fecha: string, b0: string, r: seq<string>)
    requires Envolvido(s, abre, fecha, b0) && forall b :: b in r ==> Envolvido(s, abre, fecha, b)
    ensures forall b :: b in [b0] + r ==> Envolvido(s, abre, fecha, b)
  {
  }

  /** The first block the scan finds is wrapped by the tags and holds no closing tag. */
  lemma PrimeiroBlocoEnvolvido(s: string, abre: string, fecha: string, i: nat, p: nat, q: nat)
    requires |fecha| >= 1
    requires Procurar(s, abre, i) == Some(p) && Procurar(s, fecha, p + |abre|) == Some(q)
    ensures Envolvido(s, abre, fecha, s[p + |abre|..q])
  {
    ProcurarSpec(s, abre, i);
    ProcurarSpec(s, fecha, p + |abre|);
    BlocoEntreTags(s, abre, fecha, p, q);
  }

  /** The text between an opening tag at p and the first closing tag at q is wrapped by both and holds no closing tag. */
  lemma BlocoEntreTags(s: string, abre: string, fecha: string, p: nat, q: nat)
    requires |fecha| >= 1
    requires OccursAt(s, abre, p) && p + |abre| <= q && OccursAt(s, fecha, q)
    requires forall j :: p + |abre| <= j < q ==> !OccursAt(s, fecha, j)
    ensures Occurs(s, abre + s[p + |abre|..q] + fecha) && !Occurs(s[p + |abre|..q], fecha)
  {
    var b := s[p + |abre|..q];
    assert s[p..q + |fecha|] == abre + b + fecha;
    assert OccursAt(s, abre + b + fecha, p);
    forall j | 0 <= j <= |b| - |fecha| ensures !OccursAt(b, fecha, j) {
      if OccursAt(b, fecha, j) {
        OcorrenciaInterna(s, p + |abre|, q, fecha, j);
      }
    }
  }

  /** An occurrence inside the slice s[lo..hi] is an occurrence in s. */
  lemma OcorrenciaInterna(s: string, lo: nat, hi: nat, f: string, j: nat)
    requires lo <= hi <= |s| && OccursAt(s[lo..hi], f, j)
    ensures OccursAt(s, f, lo + j)
  {
    var b := s[lo..hi];
    forall t | 0 <= t < |f| ensures s[lo + j..lo + j + |f|][t] == f[t] {
      assert b[j..j + |f|][t] == b[j + t] == s[lo + j + t];
    }
    assert s[lo + j..lo + j + |f|] == f;
  }

  function Tag(area: string): string { "[" + area + "]" }
  function TagFim(area: string): string { "[/" + area + "]" }

  /**
   * extrairAreaLayout(conteudo, area): '' when the opening tag does not occur;
   * otherwise the bodies of all [AREA]...[/AREA] blocks joined by newlines.
   */
  function ExtrairAreaLayout(conteudo: string, area: string): (r: string)
    ensures !Occurs(conteudo, Tag(area)) ==> r == ""
  {
    if Occurs(conteudo, Tag(area)) then Join(Blocos(conteudo, Tag(area), TagFim(area), 0), "\n") else ""
  }

  /** One step of the scan: the block between the tags found, then the scan after the closing tag. */
  lemma Desdobrar(s: string, abre: string, fecha: string, i: nat, p: nat, q: nat, b: string, depois: nat)
    requires |abre| >= 1 && |fecha| >= 1
    requires Procurar(s, abre, i) == Some(p) && Procurar(s, fecha, p + |abre|) == Some(q)
    requires q <= |s| && b == s[p + |abre|..q] && depois == q + |fecha|
    ensures Blocos(s, abre, fecha, i) == [b] + Blocos(s, abre, fecha, depois)
  {
  }

  /** No '[' from index i on: no tag is found. */
  lemma ProcurarSemColchete(s: string, p: string, i: nat)
    requires |p| >= 1 && p[0] == '['
    requires forall j :: i <= j < |s| ==> s[j] != '['
    ensures Procurar(s, p, i).None?
  {
    ProcurarSpec(s, p, i);
    forall j | i <= j && j + |p| <= |s| ensures s[j..j + |p|][0] == s[j] {
    }
  }

  /**
   * Blocks are taken in order of appearance: a text that opens with one
   * block (nothing before it and nothing inside it holds '[', with which
   * both tags start) yields that block's body first, then the blocks found
   * after it.
   */
  lemma {:induction false} BlocosPrimeiro(s: string, x: string, abre: string, b: string, fecha: string, y: string, depois: nat)
    requires |abre| >= 1 && |fecha| >= 1 && abre[0] == '[' && fecha[0] == '['
    requires s == x + abre + b + fecha + y && depois == |x| + |abre| + |b| + |fecha|
    requires '[' !in x && '[' !in b
    ensures Blocos(s, abre, fecha, 0) == [b] + Blocos(s, abre, fecha, depois)
  {
    var p, q := |x|, |x| + |abre| + |b|;
    Pedacos(s, x, abre, b, fecha, y);
    BlocoNoInicio(s, abre, fecha, p, q, b, depois);
  }

  lemma Pedacos(s: string, x: string, abre: string, b: string, fecha: string, y: string)
    requires s == x + abre + b + fecha + y
    ensures var p, q := |x|, |x| + |abre| + |b|;
      s[0..p] == x && OccursAt(s, abre, p) && s[p + |abre|..q] == b && OccursAt(s, fecha, q)
  {
    var p, q := |x|, |x| + |abre| + |b|;
    assert s[0..p] == x;
    assert s[p..p + |abre|] == abre;
    assert s[p + |abre|..q] == b;
    assert s[q..q + |fecha|] == fecha;
  }

  /** An opening tag at p with no '[' before it, then a closing tag at q with no '[' between: the scan's first block. */
  lemma BlocoNoInicio(s: string, abre: string, fecha: string, p: nat, q: nat, b: string, depois: nat)
    requires |abre| >= 1 && |fecha| >= 1 && abre[0] == '[' && fecha[0] == '['
    requires p + |abre| <= q && OccursAt(s, abre, p) && OccursAt(s, fecha, q)
    requires b == s[p + |abre|..q] && depois == q + |fecha|
    requires '[' !in s[0..p] && '[' !in b
    ensures Blocos(s, abre, fecha, 0) == [b] + Blocos(s, abre, fecha, depois)
  {
    SemAbertura(s, abre, 0, p);
    SemAbertura(s, fecha, p + |abre|, q);
    ProcurarPrimeiro(s, abre, 0, p);
    ProcurarPrimeiro(s, fecha, p + |abre|, q);
    Desdobrar(s, abre, fecha, 0, p, q, b, depois);
  }

  /** A tag starts with '[', so it starts nowhere in a stretch without '['. */
  lemma SemAbertura(s: string, t: string, lo: nat, hi: nat)
    requires |t| >= 1 && t[0] == '[' && lo <= hi <= |s| && '[' !in s[lo..hi]
    ensures forall j :: lo <= j < hi ==> !OccursAt(s, t, j)
  {
    forall j | lo <= j < hi ensures !OccursAt(s, t, j) {
      assert s[lo..hi][j - lo] == s[j];
      if j + |t| <= |s| {
        assert s[j..j + |t|][0] == s[j];
      }
    }
  }

  /** The first occurrence from i is at k when it occurs there and nowhere between. */
  lemma {:induction false} ProcurarPrimeiro(s: string, p: string, i: nat, k: nat)
    requires i <= k && OccursAt(s, p, k)
    requires forall j :: i <= j < k ==> !OccursAt(s, p, j)
    ensures Procurar(s, p, i) == Some(k)
    decreases k - i
  {
    if i < k {
      ProcurarPrimeiro(s, p, i + 1, k);
    }
  }

  /** A content holding a single [AREA]...[/AREA] block, with no '[' around or inside it, gives its body. */
  lemma ExtrairUmBloco(x: string, area: string, b: string, y: string)
    requires '[' !in x && '[' !in b && '[' !in y
    ensures ExtrairAreaLayout(x + Tag(area) + b + TagFim(area) + y, area) == b
  {
    var abre, fecha := Tag(area), TagFim(area);
    var s := x + abre + b + fecha + y;
    var k := |x| + |abre| + |b| + |fecha|;
    BlocosPrimeiro(s, x, abre, b, fecha, y, k);
    forall j | k <= j < |s| ensures s[j] != '[' {
      assert s[j] == y[j - k];
    }
    ProcurarSemColchete(s, abre, k);
    assert Blocos(s, abre, fecha, k) == [];
    assert s[|x|..|x| + |abre|] == abre;
    assert OccursAt(s, abre, |x|);
  }

  // --------------------------------------------------------- diretorioRelativo

  /** The pieces PHP's empty() keeps out: "" and "0". */
  predicate Vazio(s: string) { s == "" || s == "0" }

  /** count(array_filter(partes, fn ($v) => !empty($v))). */
  function NaoVazios(partes: seq<string>): (n: nat)
    ensures n <= |partes|
    decreases |partes|
  {
    if partes == [] then 0 else (if Vazio(partes[0]) then 0 else 1) + NaoVazios(partes[1..])
  }

  function Repetir(s: string, n: nat): (r: string)
    ensures |r| == n * |s|
  {
    if n == 0 then "" else s + Repetir(s, n - 1)
  }

  /** diretorioRelativo(): "../" once per non-empty '/'-segment of the application's home. */
  function DiretorioRelativo(home: string): (r: string)
    ensures |r| == 3 * NaoVazios(Split(home, '/'))
    ensures forall i :: 0 <= i < |r| ==> r[i] == "../"[i % 3]
  {
    RepetirPeriodico(NaoVazios(Split(home, '/')));
    Repetir("../", NaoVazios(Split(home, '/')))
  }

  lemma {:induction false} RepetirPeriodico(n: nat)
    ensures forall i :: 0 <= i < |Repetir("../", n)| ==> Repetir("../", n)[i] == "../"[i % 3]
  {
    if n > 0 {
      RepetirPeriodico(n - 1);
      var r := Repetir("../", n);
      forall i | 3 <= i < |r| ensures r[i] == "../"[i % 3] {
        assert r[i] == Repetir("../", n - 1)[i - 3];
        assert (i - 3) % 3 == i % 3;
      }
    }
  }

  lemma {:induction false} RepetirSoma(s: string, m: nat, n: nat)
    ensures Repetir(s, m + n) == Repetir(s, m) + Repetir(s, n)
    decreases m
  {
    if m > 0 {
      RepetirSoma(s, m - 1, n);
    }
  }

  lemma {:induction false} NaoVaziosSoma(a: seq<string>, b: seq<string>)
    ensures NaoVazios(a + b) == NaoVazios(a) + NaoVazios(b)
    decreases |a|
  {
    if a == [] {
      assert a + b == b;
    } else {
      assert (a + b)[1..] == a[1..] + b;
      assert (a + b)[0] == a[0];
      assert NaoVazios(a + b) == (if Vazio(a[0]) then 0 else 1) + NaoVazios((a + b)[1..]);
      NaoVaziosSoma(a[1..], b);
    }
  }

  /** explode('/', a . '/' . b) is the pieces of a followed by the pieces of b. */
  lemma {:induction false} SplitConcat(a: string, t: string, c: char)
    ensures Split(a + [c] + t, c) == Split(a, c) + Split(t, c)
    decreases |a|
  {
    if a == [] {
      assert (a + [c] + t)[1..] == t;
    } else {
      var s := a + [c] + t;
      assert s[1..] == a[1..] + [c] + t;
      SplitConcat(a[1..], t, c);
    }
  }

  /** Each path piece adds its own steps back: the relative path of "a/b" is that of a, then that of b. */
  lemma DiretorioRelativoConcat(a: string, b: string)
    ensures DiretorioRelativo(a + "/" + b) == DiretorioRelativo(a) + DiretorioRelativo(b)
  {
    SplitConcat(a, b, '/');
    NaoVaziosSoma(Split(a, '/'), Split(b, '/'));
    RepetirSoma("../", NaoVazios(Split(a, '/')), NaoVazios(Split(b, '/')));
  }

  /** A single directory name is one step back; "" and "0" are none. */
  lemma DiretorioRelativoSegmento(seg: string)
    requires '/' !in seg
    ensures DiretorioRelativo(seg) == if Vazio(seg) then "" else "../"
  {
    SplitNoSeparator(seg, '/');
  }

  // ---------------------------------------------------------- identificarBaseHTML

  /** identificarBaseHTML(): the 'raiz' then the 'home' of the application's configuration. */
  function IdentificarBaseHTML(raiz: string, home: string): (r: string)
    ensures StartsWith(r, raiz) && EndsWith(r, home) && |r| == |raiz| + |home|
  {
    raiz + home
  }

  // ---------------------------------------------------------------- translations

  /**
   * A language code '~^[a-z]{2}_[A-Z]{2}$~' accepts: two lower-case letters,
   * '_', two upper-case letters, optionally followed by one final newline
   * (which '$' lets through).
   */
  predicate SiglaIdioma(s: string)
  {
    (|s| == 5 || (|s| == 6 && s[5] == '\n')) &&
    IsLowerAscii(s[0]) && IsLowerAscii(s[1]) && s[2] == '_' && IsUpperAscii(s[3]) && IsUpperAscii(s[4])
  }

  /** idiomas[dominio][idioma][texto] = traducao. */
  type Tabela = map<string, map<string, map<string, string>>>

  function Buscar(t: Tabela, dominio: string, idioma: string, texto: string): Option<string>
  {
    if dominio in t && idioma in t[dominio] && texto in t[dominio][idioma] then Some(t[dominio][idioma][texto]) else None
  }

  function Gravar(t: Tabela, dominio: string, idioma: string, texto: string, traducao: string): (r: Tabela)
    ensures Buscar(r, dominio, idioma, texto) == Some(traducao)
    ensures forall d, i, x :: (d, i, x) != (dominio, idioma, texto) ==> Buscar(r, d, i, x) == Buscar(t, d, i, x)
  {
    var porIdioma := if dominio in t then t[dominio] else map[];
    var textos := if idioma in porIdioma then porIdioma[idioma] else map[];
    t[dominio := porIdioma[idioma := textos[texto := traducao]]]
  }

  /**
   * The lookup of traduzirTexto in a table, once the language is known: the
   * stored translation when there is one and it is not empty, else the text.
   */
  function Traduzir(t: Tabela, texto: string, dominio: string, idioma: string): (r: string)
    ensures r == texto || Buscar(t, dominio, idioma, texto) == Some(r)
    ensures r != texto ==> !Vazio(r)
    ensures Buscar(t, dominio, idioma, texto).None? ==> r == texto
  {
    var b := Buscar(t, dominio, idioma, texto);
    if b.Some? && !Vazio(b.value) then b.value else texto
  }

  /** A stored translation is what the lookup answers, unless it is empty; other lookups are unchanged. */
  lemma TraducaoGravada(t: Tabela, dominio: string, idioma: string, texto: string, traducao: string, d: string, i: string, x: string)
    ensures Traduzir(Gravar(t, dominio, idioma, texto, traducao), x, d, i) ==
      if (d, i, x) == (dominio, idioma, texto) then (if Vazio(traducao) then texto else traducao)
      else Traduzir(t, x, d, i)
  {
  }

  /** The static $idiomas table of the helper. */
  class Idiomas {
    var tabela: Tabela

    constructor ()
      ensures tabela == map[]
    {
      tabela := map[];
    }

    /** adicionarTraducao: the entry is stored only under a well-formed language code. */
    method AdicionarTraducao(texto: string, traducao: string, idioma: string, dominio: string)
      modifies this
      ensures SiglaIdioma(idioma) ==> tabela == Gravar(old(tabela), dominio, idioma, texto, traducao)
      ensures !SiglaIdioma(idioma) ==> tabela == old(tabela)
    {
      if SiglaIdioma(idioma) {
        tabela := Gravar(tabela, dominio, idioma, texto, traducao);
      }
    }

    /**
     * traduzirTexto(texto, dominio, idioma): an empty language falls back to
     * the language of the session or the configuration (sessao, an input).
     */
    function TraduzirTexto(texto: string, dominio: string, idioma: Option<string>, sessao: string): (r: string)
      reads this
      ensures idioma.Some? && !Vazio(idioma.value) ==> r == Traduzir(tabela, texto, dominio, idioma.value)
      ensures idioma.None? || Vazio(idioma.value) ==> r == Traduzir(tabela, texto, dominio, sessao)
    {
      var i := if idioma.None? || Vazio(idioma.value) then sessao else idioma.value;
      Traduzir(tabela, texto, dominio, i)
    }
  }
}
