// The Upload class (dlx/classes/upload.classe.php): the target directory, the
// accepted extensions, the name a file is saved under and the loop of salvar,
// which skips failed entries, filters extensions and picks a name that does not
// collide with an existing file.
// The file system is a set of existing paths; the entries of $_FILES, the
// extension obterInfos detects and whether move_uploaded_file succeeds are
// inputs of each entry.

module Upload {
  import opened Wrappers
  import opened Text
  import opened Values
  import Filtros
  import Strings
  import Arquivos

  // ------------------------------------------------------------- setDiretorio

  const BARRA: set<char> := {'/'}

  /** trim(s, '/'). */
  function SemBarras(s: string): string
  {
    TrimRight(TrimLeft(s, BARRA), BARRA)
  }

  /** trim(s, '/') removes the leading and trailing '/' and nothing else. */
  lemma SemBarrasSpec(s: string)
    ensures var r := SemBarras(s);
      (r == [] || (r[0] != '/' && r[|r| - 1] != '/')) &&
      exists i :: (OccursAt(s, r, i) && (forall j :: 0 <= j < i ==> s[j] == '/') &&
        (forall j :: i + |r| <= j < |s| ==> s[j] == '/'))
  {
    var l := TrimLeft(s, BARRA);
    var r := TrimRight(l, BARRA);
    var i := |s| - |l|;
    assert r == l[..|r|] && l == s[i..];
    assert s[i..i + |r|] == r;
    assert forall j :: 0 <= j < i ==> s[j] == '/' by {
      forall j | 0 <= j < i ensures s[j] == '/' {
        assert s[j] in BARRA;
      }
    }
    assert forall j :: i + |r| <= j < |s| ==> s[j] == '/' by {
      forall j | i + |r| <= j < |s| ensures s[j] == '/' {
        assert s[j] == l[j - i] && l[j - i] in BARRA;
      }
    }
    assert OccursAt(s, r, i);
  }

  /** Trimming twice is trimming once. */
  lemma SemBarrasIdempotente(s: string)
    ensures SemBarras(SemBarras(s)) == SemBarras(s)
  {
    var r := SemBarras(s);
    SemBarrasSpec(s);
    if r != [] {
      Filtros.TrimSemBrancos(r, BARRA);
    }
  }

  /**
   * setDiretorio: the sanitized text (null when empty, which trim turns back
   * into '') without its leading and trailing '/'.
   */
  function Diretorio(d: string): string
  {
    SemBarras(Filtros.Sanitizar(d))
  }

  /** setExtensoes: every extension sanitized, an empty one becoming null. */
  function Extensoes(l: seq<string>): (r: seq<Option<string>>)
    ensures |r| == |l|
    ensures forall i :: 0 <= i < |l| ==> r[i] == Filtros.SanitizarOuNulo(l[i])
    decreases |l|
  {
    if l == [] then [] else [Filtros.SanitizarOuNulo(l[0])] + Extensoes(l[1..])
  }

  // -------------------------------------------------------------- definirNome

  /** The characters the final pattern of definirNome keeps: [a-z], [0-9], '^' and '-'. */
  predicate CharNome(c: char)
  {
    IsLowerAscii(c) || IsDigit(c) || c == '^' || c == '-'
  }

  predicate CharExtensao(c: char)
  {
    IsLowerAscii(c) || IsDigit(c)
  }

  /** s ends with '.' and m characters of [a-z0-9], 1 <= m <= 4: what \.[a-z0-9]{1,4}$ matches. */
  predicate ExtensaoFinal(s: string, m: int)
  {
    1 <= m <= 4 && m + 1 <= |s| && s[|s| - m - 1] == '.' &&
    forall j :: |s| - m <= j < |s| ==> CharExtensao(s[j])
  }

  /** The length of the final extension, looking at the last m characters and more; 0 when there is none. */
  function TamanhoExtensaoDe(s: string, m: nat): (r: nat)
    requires 1 <= m <= 5
    requires forall j :: 0 <= j && |s| - m + 1 <= j < |s| ==> CharExtensao(s[j])
    ensures r != 0 ==> ExtensaoFinal(s, r)
    ensures r == 0 ==> forall k :: m <= k <= 4 ==> !ExtensaoFinal(s, k)
    decreases 5 - m
  {
    if m > 4 || m + 1 > |s| || !CharExtensao(s[|s| - m]) then 0
    else if s[|s| - m - 1] == '.' then m
    else TamanhoExtensaoDe(s, m + 1)
  }

  /** The length of the extension that the pattern \.[a-z0-9]{1,4}$ removes, 0 when it matches nowhere. */
  function TamanhoExtensao(s: string): (r: nat)
    ensures r != 0 ==> ExtensaoFinal(s, r)
    ensures r == 0 ==> forall k :: !ExtensaoFinal(s, k)
  {
    TamanhoExtensaoDe(s, 1)
  }

  /** s without its final ".ext". */
  function SemExtensao(s: string): string
  {
    var m := TamanhoExtensao(s);
    if m == 0 then s else s[..|s| - m - 1]
  }

  /** Where the pattern matches, exactly the '.' and the m characters after it go. */
  lemma SemExtensaoRemove(s: string, m: int)
    requires ExtensaoFinal(s, m)
    ensures SemExtensao(s) == s[..|s| - m - 1] && s == SemExtensao(s) + "." + s[|s| - m..]
  {
    ExtensaoFinalUnica(s, TamanhoExtensao(s), m);
  }

  /** Where it matches nowhere, the text is kept. */
  lemma SemExtensaoMantem(s: string)
    requires forall m :: !ExtensaoFinal(s, m)
    ensures SemExtensao(s) == s
  {
  }

  /** The removal of every character outside [a-z0-9^-]. */
  function Filtrar(s: string): (r: string)
    ensures forall i :: 0 <= i < |r| ==> CharNome(r[i])
    ensures (forall i :: 0 <= i < |s| ==> CharNome(s[i])) ==> r == s
    ensures |r| <= |s|
    decreases |s|
  {
    if s == [] then []
    else (if CharNome(s[0]) then [s[0]] else []) + Filtrar(s[1..])
  }

  /** A name made only of characters definirNome keeps. */
  predicate Canonico(s: string)
  {
    forall i :: 0 <= i < |s| ==> CharNome(s[i])
  }

  /** Characters the steps before the final pattern leave alone: those it keeps, and '.'. */
  predicate CharEstavel(c: char)
  {
    CharNome(c) || c == '.'
  }

  predicate Estavel(s: string)
  {
    forall i :: 0 <= i < |s| ==> CharEstavel(s[i])
  }

  /** trim, spaces made '-', accents removed, lower-cased: the steps before the final pattern. */
  function Normalizar(x: string): string
  {
    Lower(Strings.RemoverAcentos(ReplaceAll(Trim(x, WHITESPACE), " ", "-")))
  }

  /**
   * definirNome(o, n): n when given, else the original name, normalized; then
   * the final ".ext" of 1-4 characters of [a-z0-9] and every character outside
   * [a-z0-9^-] removed.
   */
  function DefinirNome(o: string, n: Option<string>): (r: string)
    ensures Canonico(r)
  {
    Filtrar(SemExtensao(Normalizar(if n.Some? then n.value else o)))
  }

  lemma EstavelNaoBranco(c: char)
    requires CharEstavel(c)
    ensures c !in WHITESPACE
  {
  }

  /** trim stops at once on both ends. */
  lemma TrimEstavel(s: string)
    requires s != [] ==> CharEstavel(s[0]) && CharEstavel(s[|s| - 1])
    ensures Trim(s, WHITESPACE) == s
  {
    if s == [] {
      assert TrimLeft(s, WHITESPACE) == [];
    } else {
      var c0, c1 := s[0], s[|s| - 1];
      assert c0 !in WHITESPACE by {
        EstavelNaoBranco(c0);
      }
      assert c1 !in WHITESPACE by {
        EstavelNaoBranco(c1);
      }
      Filtros.TrimSemBrancos(s, WHITESPACE);
    }
  }

  lemma EspacosEstavel(s: string)
    requires Estavel(s)
    ensures ReplaceAll(s, " ", "-") == s
  {
    forall i ensures !OccursAt(s, " ", i) {
      if 0 <= i < |s| {
        assert CharEstavel(s[i]);
        assert s[i..i + 1][0] == s[i];
      }
    }
    ReplaceAbsent(s, " ", "-");
  }

  lemma AcentosEstavel(s: string)
    requires Estavel(s)
    ensures Lower(Strings.RemoverAcentos(s)) == s
  {
    assert Strings.NoAccents(s) by {
      forall i | 0 <= i < |s| ensures !Strings.IsAccented(s[i]) {
        assert CharEstavel(s[i]);
      }
    }
    Strings.RemoverAcentosSpec(s);
    assert NoUpper(s) by {
      forall i | 0 <= i < |s| ensures !IsUpperAscii(s[i]) {
        assert CharEstavel(s[i]);
      }
    }
    LowerOfLower(s);
  }

  /** Text made only of [a-z0-9^-] and '.' goes through the first steps unchanged. */
  lemma NormalizarEstavel(s: string)
    requires Estavel(s)
    ensures Normalizar(s) == s
  {
    TrimEstavel(s);
    EspacosEstavel(s);
    AcentosEstavel(s);
  }

  /** A canonical name saved under its own name comes back unchanged: definirNome is idempotent. */
  lemma DefinirNomeIdempotente(o: string, n: Option<string>)
    ensures DefinirNome(DefinirNome(o, n), None) == DefinirNome(o, n)
  {
    CanonicoFixo(DefinirNome(o, n));
  }

  /** A canonical name goes through every step of definirNome unchanged. */
  lemma CanonicoFixo(r: string)
    requires Canonico(r)
    ensures DefinirNome(r, None) == r
  {
    assert Normalizar(r) == r by {
      forall i | 0 <= i < |r| ensures CharEstavel(r[i]) {
        assert CharNome(r[i]);
      }
      NormalizarEstavel(r);
    }
    assert SemExtensao(r) == r by {
      forall m ensures !ExtensaoFinal(r, m) {
        if 1 <= m <= 4 && m + 1 <= |r| {
          assert CharNome(r[|r| - m - 1]);
        }
      }
      SemExtensaoMantem(r);
    }
  }

  /** A canonical name, '.', and 1-4 characters of [a-z0-9]: stable, with that final extension. */
  lemma ComExtensao(p: string, e: string)
    requires Canonico(p) && 1 <= |e| <= 4
    requires forall j :: 0 <= j < |e| ==> CharExtensao(e[j])
    ensures Estavel(p + "." + e) && ExtensaoFinal(p + "." + e, |e|)
    ensures (p + "." + e)[..|p|] == p
  {
    var s := p + "." + e;
    forall i | 0 <= i < |s| ensures CharEstavel(s[i]) {
      if i < |p| {
        assert s[i] == p[i];
      } else if i > |p| {
        assert s[i] == e[i - |p| - 1];
      }
    }
    forall j | |s| - |e| <= j < |s| ensures CharExtensao(s[j]) {
      assert s[j] == e[j - |p| - 1];
    }
  }

  /** A canonical name followed by a short extension loses exactly the extension. */
  lemma DefinirNomeTiraExtensao(p: string, e: string)
    requires Canonico(p) && 1 <= |e| <= 4
    requires forall j :: 0 <= j < |e| ==> CharExtensao(e[j])
    ensures DefinirNome(p + "." + e, None) == p
  {
    var s := p + "." + e;
    ComExtensao(p, e);
    NormalizarEstavel(s);
    SemExtensaoRemove(s, |e|);
    assert SemExtensao(Normalizar(s)) == p;
  }

  /** The final pattern matches at one place at most: extension characters are never '.'. */
  lemma ExtensaoFinalUnica(s: string, m: int, k: int)
    requires ExtensaoFinal(s, m) && ExtensaoFinal(s, k)
    ensures m == k
  {
    assert !CharExtensao(s[|s| - m - 1]) && !CharExtensao(s[|s| - k - 1]);
  }

  // --------------------------------------------------------- collision naming

  /** "{dir}/{n}.{ext}". */
  function Caminho(dir: string, n: string, ext: string): string
  {
    dir + "/" + n + "." + ext
  }

  /** "{dir}/{n}-{q}.{ext}". */
  function Candidato(dir: string, n: string, ext: string, q: nat): string
  {
    dir + "/" + n + "-" + NatToString(q) + "." + ext
  }

  lemma CandidatoInjetivo(dir: string, n: string, ext: string, a: nat, b: nat)
    requires Candidato(dir, n, ext, a) == Candidato(dir, n, ext, b)
    ensures a == b
  {
    var p := dir + "/" + n + "-";
    var x := Candidato(dir, n, ext, a);
    var sa := NatToString(a);
    var sb := NatToString(b);
    assert x == p + sa + "." + ext && x == p + sb + "." + ext;
    assert |sa| == |sb|;
    assert sa == x[|p|..|p| + |sa|];
    assert sb == x[|p|..|p| + |sb|];
    NatToStringInjective(a, b);
  }

  /** The candidate n-q is none of n-0 .. n-(q-1). */
  lemma CandidatoNovo(dir: string, n: string, ext: string, q: nat, antes: set<string>)
    requires forall x :: x in antes ==> exists j :: 0 <= j < q && x == Candidato(dir, n, ext, j)
    ensures Candidato(dir, n, ext, q) !in antes
  {
    if Candidato(dir, n, ext, q) in antes {
      var j :| 0 <= j < q && Candidato(dir, n, ext, q) == Candidato(dir, n, ext, j);
      CandidatoInjetivo(dir, n, ext, q, j);
      assert false;
    }
  }

  /** The candidates n-0 .. n-(q-1). */
  ghost function Candidatos(dir: string, n: string, ext: string, q: nat): (r: set<string>)
    ensures |r| == q
    ensures forall j :: 0 <= j < q ==> Candidato(dir, n, ext, j) in r
    ensures forall x :: x in r ==> exists j :: 0 <= j < q && x == Candidato(dir, n, ext, j)
    decreases q
  {
    if q == 0 then {}
    else
      var antes := Candidatos(dir, n, ext, q - 1);
      CandidatoNovo(dir, n, ext, q - 1, antes);
      antes + {Candidato(dir, n, ext, q - 1)}
  }

  /** A finite set holds at most |existe| of the candidates. */
  lemma CandidatosLimitados(dir: string, n: string, ext: string, existe: set<string>, q: nat)
    requires forall j :: 0 <= j < q ==> Candidato(dir, n, ext, j) in existe
    ensures q <= |existe|
  {
    var c := Candidatos(dir, n, ext, q);
    assert c <= existe;
    assert |c| <= |existe| by {
      var resto := existe - c;
      assert existe == c + resto;
    }
  }

  /**
   * The first of n-q, n-(q+1), ... that does not exist, given that
   * n-0 .. n-(q-1) all exist.
   */
  function PrimeiroLivre(dir: string, n: string, ext: string, existe: set<string>, q: nat): (r: string)
    requires forall j :: 0 <= j < q ==> Candidato(dir, n, ext, j) in existe
    ensures r !in existe
    ensures exists k: nat :: (q <= k && r == Candidato(dir, n, ext, k) &&
      forall j :: 0 <= j < k ==> Candidato(dir, n, ext, j) in existe)
    decreases |existe| - q
  {
    var c := Candidato(dir, n, ext, q);
    if c !in existe then c
    else
      CandidatosLimitados(dir, n, ext, existe, q + 1);
      PrimeiroLivre(dir, n, ext, existe, q + 1)
  }

  /**
   * The target salvar picks without overwrite: n.ext when it does not exist,
   * else the first of n-0.ext, n-1.ext, ... that does not.
   */
  function NomeLivre(dir: string, n: string, ext: string, existe: set<string>): (r: string)
    ensures r !in existe
    ensures Caminho(dir, n, ext) !in existe ==> r == Caminho(dir, n, ext)
    ensures Caminho(dir, n, ext) in existe ==> exists k: nat :: (r == Candidato(dir, n, ext, k) &&
      forall j :: 0 <= j < k ==> Candidato(dir, n, ext, j) in existe)
  {
    if Caminho(dir, n, ext) !in existe then Caminho(dir, n, ext) else PrimeiroLivre(dir, n, ext, existe, 0)
  }

  /** The target: "{dir}/{n}.{ext}" when overwriting, the first free name otherwise. */
  function Destino(dir: string, n: string, ext: string, existe: set<string>, se: bool): string
  {
    if se then Caminho(dir, n, ext) else NomeLivre(dir, n, ext, existe)
  }

  /** The while loop of salvar that walks the candidates while the target exists. */
  method EscolherDestino(dir: string, n: string, ext: string, existe: set<string>, se: bool) returns (c: string)
    ensures c == Destino(dir, n, ext, existe, se)
    ensures !se ==> c !in existe
  {
    c := Caminho(dir, n, ext);
    if !se {
      var q: nat := 0;
      while c in existe
        invariant forall j :: 0 <= j < q - 1 ==> Candidato(dir, n, ext, j) in existe
        invariant q == 0 ==> c == Caminho(dir, n, ext)
        invariant q > 0 ==> c == Candidato(dir, n, ext, q - 1) && Caminho(dir, n, ext) in existe
        invariant q > 0 ==> NomeLivre(dir, n, ext, existe) == PrimeiroLivre(dir, n, ext, existe, q - 1)
        decreases |existe| + 1 - q
      {
        if q > 0 {
          CandidatosLimitados(dir, n, ext, existe, q);
        }
        c := Candidato(dir, n, ext, q);
        q := q + 1;
      }
    }
  }

  // -------------------------------------------------------------------- salvar

  /**
   * One entry obterArquivos yields: the temporary file, the original name and
   * the error code, with the extension obterInfos detects for the temporary
   * file and whether move_uploaded_file succeeds for it.
   */
  datatype Entrada = Entrada(tmp: string, nome: string, erro: Value, extensao: Value, movido: bool)

  /** salvos, nao_salvos['extensao'] and the paths that exist. */
  datatype Estado = Estado(salvos: seq<string>, naoSalvos: seq<string>, existe: set<string>)

  /** The extension obterInfos detected, else the text after the last '.' of the original name. */
  function ExtensaoDe(e: Entrada): (r: string)
    ensures Empty(e.extensao) ==> '.' !in r && EndsWith(e.nome, r)
  {
    if !Empty(e.extensao) then ValueText(e.extensao) else Arquivos.DepoisDoUltimo(e.nome, '.')
  }

  /** in_array(ext, extensoes): equal text, or a null entry against the empty text. */
  predicate NaLista(ext: string, extensoes: seq<Option<string>>)
  {
    exists i :: 0 <= i < |extensoes| && (extensoes[i] == Some(ext) || (extensoes[i].None? && ext == ""))
  }

  /** Accepted: no list of extensions, or the extension in the list. */
  predicate Permitida(ext: string, extensoes: seq<Option<string>>)
  {
    |extensoes| == 0 || NaLista(ext, extensoes)
  }

  /** An entry is processed when its error is exactly 0 and its temporary file exists. */
  predicate Valida(e: Entrada, existe: set<string>)
  {
    e.erro == Int(0) && e.tmp in existe
  }

  /** The options of one call of salvar. */
  datatype Config = Config(dir: string, extensoes: seq<Option<string>>, bloquear: bool, nm: Option<string>, se: bool)

  /** "{dir}/{n}.{ext}" for the entry, or the first free name when not overwriting. */
  function Alvo(cfg: Config, e: Entrada, existe: set<string>): (r: string)
    ensures !cfg.se ==> r !in existe
  {
    Destino(cfg.dir, DefinirNome(e.nome, cfg.nm), ExtensaoDe(e), existe, cfg.se)
  }

  /** a is a prefix of b. */
  predicate Prefixo<T(==)>(a: seq<T>, b: seq<T>)
  {
    |a| <= |b| && b[..|a|] == a
  }

  lemma PrefixoTransitivo<T>(a: seq<T>, b: seq<T>, c: seq<T>)
    requires Prefixo(a, b) && Prefixo(b, c)
    ensures Prefixo(a, c)
  {
    assert c[..|a|] == c[..|b|][..|a|];
  }

  /** The state only grows: each list keeps what it had and gains at most one name. */
  predicate Cresce(antes: Estado, depois: Estado, n: nat)
  {
    Prefixo(antes.salvos, depois.salvos) && |depois.salvos| <= |antes.salvos| + n &&
    Prefixo(antes.naoSalvos, depois.naoSalvos) && |depois.naoSalvos| <= |antes.naoSalvos| + n &&
    antes.existe <= depois.existe
  }

  lemma CresceTransitivo(a: Estado, b: Estado, c: Estado, n: nat, m: nat)
    requires Cresce(a, b, n) && Cresce(b, c, m)
    ensures Cresce(a, c, n + m)
  {
    PrefixoTransitivo(a.salvos, b.salvos, c.salvos);
    PrefixoTransitivo(a.naoSalvos, b.naoSalvos, c.naoSalvos);
  }

  /** One pass of the loop: the new state, and whether it throws 1403 (after recording the refused name last). */
  function Passo(cfg: Config, e: Entrada, st: Estado): (r: (Estado, bool))
    ensures Cresce(st, r.0, 1)
    ensures r.1 ==> cfg.bloquear
    ensures r.1 ==> r.0.naoSalvos == st.naoSalvos + [e.nome] && !Permitida(ExtensaoDe(e), cfg.extensoes)
  {
    if !Valida(e, st.existe) then (st, false)
    else if !Permitida(ExtensaoDe(e), cfg.extensoes) then
      assert (st.naoSalvos + [e.nome])[..|st.naoSalvos|] == st.naoSalvos;
      (st.(naoSalvos := st.naoSalvos + [e.nome]), cfg.bloquear)
    else if e.movido then
      var c := Alvo(cfg, e, st.existe);
      assert (st.salvos + [c])[..|st.salvos|] == st.salvos;
      (st.(salvos := st.salvos + [c], existe := st.existe + {c}), false)
    else (st, false)
  }

  /**
   * The whole loop: the final state, and whether it stopped by throwing 1403; when it did,
   * the last name in nao_salvos is that of an entry whose extension was refused.
   */
  function Processar(cfg: Config, es: seq<Entrada>, st: Estado): (r: (Estado, bool))
    ensures Cresce(st, r.0, |es|)
    ensures r.1 ==> cfg.bloquear
    ensures r.1 ==> |r.0.naoSalvos| > 0
    ensures r.1 ==> exists i :: 0 <= i < |es| && es[i].nome == r.0.naoSalvos[|r.0.naoSalvos| - 1] && !Permitida(ExtensaoDe(es[i]), cfg.extensoes)
    decreases |es|
  {
    if es == [] then (st, false)
    else
      var p := Passo(cfg, es[0], st);
      if p.1 then p
      else
        var q := Processar(cfg, es[1..], p.0);
        CresceTransitivo(st, p.0, q.0, 1, |es| - 1);
        q
  }

  /** The names saved between two states were free before and exist after. */
  predicate NovosLivres(antes: Estado, depois: Estado)
  {
    forall i :: |antes.salvos| <= i < |depois.salvos| ==>
      depois.salvos[i] !in antes.existe && depois.salvos[i] in depois.existe
  }

  /** The names saved between two states are pairwise distinct. */
  predicate NovosDistintos(antes: Estado, depois: Estado)
  {
    forall i, j :: |antes.salvos| <= i < j < |depois.salvos| ==> depois.salvos[i] != depois.salvos[j]
  }

  /** One pass without overwrite saves at most one name, free before it. */
  lemma PassoSemColisao(cfg: Config, e: Entrada, st: Estado)
    requires !cfg.se
    ensures NovosLivres(st, Passo(cfg, e, st).0) && NovosDistintos(st, Passo(cfg, e, st).0)
  {
  }

  /** Freshness and distinctness compose along a growing sequence of states. */
  lemma NovosCompor(a: Estado, b: Estado, c: Estado, n: nat, m: nat)
    requires Cresce(a, b, n) && Cresce(b, c, m)
    requires NovosLivres(a, b) && NovosDistintos(a, b) && NovosLivres(b, c) && NovosDistintos(b, c)
    ensures NovosLivres(a, c) && NovosDistintos(a, c)
  {
    forall i | |a.salvos| <= i < |b.salvos| ensures c.salvos[i] == b.salvos[i] {
      assert c.salvos[..|b.salvos|][i] == b.salvos[i];
    }
  }

  /**
   * Without overwrite, the files one call saves go to paths that did not exist
   * before it and that are pairwise distinct; every one of them exists after.
   */
  lemma {:induction false} SemColisao(cfg: Config, es: seq<Entrada>, st: Estado)
    requires !cfg.se
    ensures NovosLivres(st, Processar(cfg, es, st).0) && NovosDistintos(st, Processar(cfg, es, st).0)
    decreases |es|
  {
    if es != [] {
      var p := Passo(cfg, es[0], st);
      PassoSemColisao(cfg, es[0], st);
      if !p.1 {
        SemColisao(cfg, es[1..], p.0);
        NovosCompor(st, p.0, Processar(cfg, es[1..], p.0).0, 1, |es| - 1);
      }
    } else {
      assert Processar(cfg, es, st).0 == st;
    }
  }

  /** With an empty list of extensions nothing is refused: nao_salvos is kept and 1403 is never thrown. */
  lemma {:induction false} SemFiltro(cfg: Config, es: seq<Entrada>, st: Estado)
    requires cfg.extensoes == []
    ensures Processar(cfg, es, st).0.naoSalvos == st.naoSalvos && !Processar(cfg, es, st).1
    decreases |es|
  {
    if es != [] {
      SemFiltro(cfg, es[1..], Passo(cfg, es[0], st).0);
    }
  }

  /** Entries with an error or without a temporary file leave everything as it was. */
  lemma {:induction false} SoInvalidas(cfg: Config, es: seq<Entrada>, st: Estado)
    requires forall i :: 0 <= i < |es| ==> !Valida(es[i], st.existe)
    ensures Processar(cfg, es, st) == (st, false)
    decreases |es|
  {
    if es != [] {
      SoInvalidas(cfg, es[1..], st);
    }
  }

  /** A refused extension with blocking on throws at once, after recording the name. */
  lemma RecusaBloqueia(cfg: Config, e: Entrada, es: seq<Entrada>, st: Estado)
    requires cfg.bloquear && Valida(e, st.existe) && !Permitida(ExtensaoDe(e), cfg.extensoes)
    ensures Processar(cfg, [e] + es, st) == (st.(naoSalvos := st.naoSalvos + [e.nome]), true)
  {
    assert ([e] + es)[0] == e;
  }

  /** implode(', ', extensoes): a null extension prints as the empty text. */
  function ListaExtensoes(l: seq<Option<string>>): (r: string)
    ensures l == [] ==> r == ""
    ensures |l| == 1 ==> r == (if l[0].Some? then l[0].value else "")
  {
    Join(seq(|l|, i requires 0 <= i < |l| => if l[i].Some? then l[i].value else ""), ", ")
  }

  /** The 1403 message of salvar: the refused file's name and the accepted extensions. */
  function MensagemExtensao(nome: string, extensoes: seq<Option<string>>): (r: string)
    ensures |r| > |nome|
  {
    "A extensão <b>" + nome + "</b> não é aceita para upload desse tipo de arquivo.<br/>" +
    "Por favor, verifique se o arquivo tem uma dessas extensões: <b>" + ListaExtensoes(extensoes) + "</b>"
  }

  /** The body of the loop of salvar for one entry. */
  method Processar1(cfg: Config, a: Entrada, st: Estado) returns (novo: Estado, lancou: bool)
    ensures (novo, lancou) == Passo(cfg, a, st)
  {
    novo, lancou := st, false;
    if a.erro != Int(0) || a.tmp !in st.existe {
      return;
    }
    var ext := ExtensaoDe(a);
    if !Permitida(ext, cfg.extensoes) {
      novo := st.(naoSalvos := st.naoSalvos + [a.nome]);
      lancou := cfg.bloquear;
      return;
    }
    var n := DefinirNome(a.nome, cfg.nm);
    var c := EscolherDestino(cfg.dir, n, ext, st.existe, cfg.se);
    if a.movido {
      novo := st.(salvos := st.salvos + [c], existe := st.existe + {c});
    }
  }

  /** The foreach of salvar: entry after entry, stopping where 1403 is thrown. */
  method ProcessarTodos(cfg: Config, entradas: seq<Entrada>, st0: Estado) returns (st: Estado, lancou: bool)
    ensures (st, lancou) == Processar(cfg, entradas, st0)
  {
    st, lancou := st0, false;
    var i := 0;
    while i < |entradas|
      invariant 0 <= i <= |entradas|
      invariant Processar(cfg, entradas[i..], st) == Processar(cfg, entradas, st0)
    {
      assert entradas[i..][0] == entradas[i] && entradas[i..][1..] == entradas[i + 1..];
      st, lancou := Processar1(cfg, entradas[i], st);
      if lancou {
        return;
      }
      i := i + 1;
    }
    assert entradas[i..] == [];
  }

  class Upload {
    var diretorio: string
    var extensoes: seq<Option<string>>
    var campo: Option<string>
    var salvos: seq<string>
    var naoSalvos: seq<string>
    var confBloqExtensao: bool

    /** new Upload(dir, cmp): the directory and field set, no extension filter, nothing saved. */
    constructor (dir: string, cmp: string)
      ensures diretorio == Diretorio(dir) && campo == Filtros.SanitizarOuNulo(cmp)
      ensures extensoes == [] && salvos == [] && naoSalvos == [] && !confBloqExtensao
    {
      diretorio := Diretorio(dir);
      campo := Filtros.SanitizarOuNulo(cmp);
      extensoes := [];
      salvos := [];
      naoSalvos := [];
      confBloqExtensao := false;
    }

    method SetDiretorio(d: string)
      modifies this
      ensures diretorio == Diretorio(d)
      ensures unchanged(this`extensoes, this`campo, this`salvos, this`naoSalvos, this`confBloqExtensao)
    {
      diretorio := Diretorio(d);
    }

    method SetExtensoes(l: seq<string>)
      modifies this
      ensures extensoes == Extensoes(l)
      ensures unchanged(this`diretorio, this`campo, this`salvos, this`naoSalvos, this`confBloqExtensao)
    {
      extensoes := Extensoes(l);
    }

    method SetCampo(c: string)
      modifies this
      ensures campo == Filtros.SanitizarOuNulo(c)
      ensures unchanged(this`diretorio, this`extensoes, this`salvos, this`naoSalvos, this`confBloqExtensao)
    {
      campo := Filtros.SanitizarOuNulo(c);
    }

    /**
     * salvar(nm, se) over the entries obterArquivos yields: 1404 when the
     * directory does not exist; otherwise the loop of Processar, throwing 1403
     * where it stops on a refused extension, and returning count(salvos).
     */
    method Salvar(nm: Option<string>, se: bool, entradas: seq<Entrada>, existe: set<string>) returns (r: Outcome<int>)
      modifies this
      ensures unchanged(this`diretorio, this`extensoes, this`campo, this`confBloqExtensao)
      ensures diretorio !in existe ==>
        r.Throw? && r.code == NOT_FOUND && salvos == old(salvos) && naoSalvos == old(naoSalvos)
      ensures diretorio in existe ==>
        var fim := Processar(Config(diretorio, extensoes, confBloqExtensao, nm, se), entradas,
                             Estado(old(salvos), old(naoSalvos), existe));
        salvos == fim.0.salvos && naoSalvos == fim.0.naoSalvos &&
        (fim.1 ==> r == Throw(FORBIDDEN, MensagemExtensao(naoSalvos[|naoSalvos| - 1], extensoes))) &&
        (!fim.1 ==> r == Ok(|salvos|))
    {
      if diretorio !in existe {
        return Throw(NOT_FOUND, "O diretório <b>" + diretorio + "</b> não foi localizado.");
      }
      r := SalvarEntradas(nm, se, entradas, existe);
    }

    /** The part of salvar after the directory check: the loop, then 1403 or count(salvos). */
    method SalvarEntradas(nm: Option<string>, se: bool, entradas: seq<Entrada>, existe: set<string>) returns (r: Outcome<int>)
      modifies this
      ensures unchanged(this`diretorio, this`extensoes, this`campo, this`confBloqExtensao)
      ensures var fim := Processar(Config(diretorio, extensoes, confBloqExtensao, nm, se), entradas,
                                   Estado(old(salvos), old(naoSalvos), existe));
        salvos == fim.0.salvos && naoSalvos == fim.0.naoSalvos &&
        (fim.1 ==> r == Throw(FORBIDDEN, MensagemExtensao(naoSalvos[|naoSalvos| - 1], extensoes))) &&
        (!fim.1 ==> r == Ok(|salvos|))
    {
      var cfg := Config(diretorio, extensoes, confBloqExtensao, nm, se);
      var fim, lancou := ProcessarTodos(cfg, entradas, Estado(salvos, naoSalvos, existe));
      salvos, naoSalvos := fim.salvos, fim.naoSalvos;
      if lancou {
        return Throw(FORBIDDEN, MensagemExtensao(naoSalvos[|naoSalvos| - 1], extensoes));
      }
      r := Ok(|salvos|);
    }
  }
}
