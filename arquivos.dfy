// DLX\Ajudantes\Arquivos (dlx/ajudantes/arquivos.ajudante.php): the search for
// a file in the ancestor directories of a base path, and the name and extension
// that obterInfos reports. File existence is a set of existing paths; the
// mime-type detection and the file size are parameters.

module Arquivos {
  import opened Wrappers
  import opened Text
  import opened Values
  import opened Assoc
  import Vetores

  // ------------------------------------------------ procurarDiretoriosAntecessores

  /** The characters of a directory name that the search may drop: [a-zA-Z_-]. */
  predicate DeSegmento(c: char)
  {
    IsAsciiLetter(c) || c == '_' || c == '-'
  }

  predicate Segmento(s: string)
  {
    |s| >= 1 && forall i :: 0 <= i < |s| ==> DeSegmento(s[i])
  }

  /** Length of the longest run of segment characters that ends s. */
  function Cauda(s: string): (n: nat)
    ensures n <= |s|
    ensures forall i :: |s| - n <= i < |s| ==> DeSegmento(s[i])
    ensures n < |s| ==> !DeSegmento(s[|s| - n - 1])
    decreases |s|
  {
    if s == [] || !DeSegmento(s[|s| - 1]) then 0 else 1 + Cauda(s[..|s| - 1])
  }

  /**
   * preg_replace('~\/[a-zA-Z_\-]+\/?$~', '', base): a final "/name" or "/name/"
   * is removed; a base without one is returned as it is.
   */
  function Cortar(base: string): (r: string)
    ensures |r| <= |base|
  {
    var t := if base != [] && base[|base| - 1] == '/' then base[..|base| - 1] else base;
    var n := Cauda(t);
    var p := |t| - n - 1;
    if n >= 1 && p >= 0 && t[p] == '/' then base[..p] else base
  }

  /** Cortar removes a final "/name" or "/name/", or nothing. */
  lemma CortarForma(base: string)
    ensures var r := Cortar(base);
      r == base || exists seg :: Segmento(seg) && (base == r + "/" + seg || base == r + "/" + seg + "/")
  {
    var t := if base != [] && base[|base| - 1] == '/' then base[..|base| - 1] else base;
    var n := Cauda(t);
    var p := |t| - n - 1;
    if n >= 1 && p >= 0 && t[p] == '/' {
      var seg := t[p + 1..];
      assert Segmento(seg);
      assert t == base[..p] + "/" + seg;
      assert base == t || base == t + "/";
    }
  }

  /** The directory k levels above base: Cortar applied k times. */
  function Nivel(base: string, k: nat): string
    decreases k
  {
    if k == 0 then base else Nivel(Cortar(base), k - 1)
  }

  /** The path searched for: arquivo with a leading base removed. */
  function Modelo(arquivo: string, base: string): (r: string)
    ensures StartsWith(arquivo, base) ==> base + r == arquivo
    ensures !StartsWith(arquivo, base) ==> r == arquivo
  {
    if StartsWith(arquivo, base) then
      assert arquivo == arquivo[..|base|] + arquivo[|base|..];
      arquivo[|base|..]
    else arquivo
  }

  /** The candidate "{base}/{modelo}" at the k-th ancestor. */
  function Candidato(base: string, k: nat, modelo: string): string
  {
    Nivel(base, k) + "/" + modelo
  }

  /**
   * The loop of procurarDiretoriosAntecessores: try "{base}/{modelo}"; while it
   * does not exist and fewer than qtde levels were dropped, drop one level.
   */
  function Busca(modelo: string, base: string, restantes: int, existe: set<string>): Option<string>
    decreases if restantes < 0 then 0 else restantes
  {
    var a := base + "/" + modelo;
    if a in existe then Some(a)
    else if restantes <= 0 then None
    else Busca(modelo, Cortar(base), restantes - 1, existe)
  }

  /** procurarDiretoriosAntecessores(arquivo, base, qtde_dir): the first candidate that exists, or false (None). */
  method ProcurarDiretoriosAntecessores(arquivo: string, base: string, qtdeDir: int, existe: set<string>) returns (r: Option<string>)
    ensures r == Busca(Modelo(arquivo, base), base, qtdeDir, existe)
    ensures r.Some? ==> r.value in existe
  {
    var c := 0;
    var modelo := Modelo(arquivo, base);
    var b := base;
    var a := b + "/" + modelo;
    while a !in existe && c < qtdeDir
      invariant a == b + "/" + modelo
      invariant Busca(modelo, base, qtdeDir, existe) == Busca(modelo, b, qtdeDir - c, existe)
      decreases qtdeDir - c
    {
      assert Busca(modelo, b, qtdeDir - c, existe) == Busca(modelo, Cortar(b), qtdeDir - c - 1, existe);
      b := Cortar(b);
      c := c + 1;
      a := b + "/" + modelo;
    }
    r := if a in existe then Some(a) else None;
  }

  /** Level k is within reach of a search allowed qtde levels. */
  predicate Alcance(k: nat, qtde: int)
  {
    k <= qtde || k == 0
  }

  /** Level k holds the first existing candidate and v is its path. */
  predicate PrimeiroExistente(base: string, modelo: string, k: nat, existe: set<string>, v: string)
  {
    v == Candidato(base, k, modelo) && v in existe &&
    forall j: nat :: j < k ==> Candidato(base, j, modelo) !in existe
  }

  /**
   * The search answers the first of the levels 0..max(qtde, 0) whose candidate
   * exists, and false exactly when none of them does.
   */
  lemma {:induction false} BuscaPrimeiroNivel(modelo: string, base: string, qtde: int, existe: set<string>)
    ensures Busca(modelo, base, qtde, existe).None? <==>
      forall k: nat :: Alcance(k, qtde) ==> Candidato(base, k, modelo) !in existe
    ensures Busca(modelo, base, qtde, existe).Some? ==>
      exists k: nat :: Alcance(k, qtde) && PrimeiroExistente(base, modelo, k, existe, Busca(modelo, base, qtde, existe).value)
    decreases if qtde < 0 then 0 else qtde
  {
    var r := Busca(modelo, base, qtde, existe);
    assert Candidato(base, 0, modelo) == base + "/" + modelo;
    if base + "/" + modelo !in existe && qtde > 0 {
      var c := Cortar(base);
      assert r == Busca(modelo, c, qtde - 1, existe);
      BuscaPrimeiroNivel(modelo, c, qtde - 1, existe);
      if r.Some? {
        var k: nat :| Alcance(k, qtde - 1) && PrimeiroExistente(c, modelo, k, existe, r.value);
        PrimeiroSobe(base, modelo, k, existe, r.value);
        assert Alcance(k + 1, qtde);
      } else {
        forall k: nat | Alcance(k, qtde) ensures Candidato(base, k, modelo) !in existe {
          if k > 0 {
            CandidatoSobe(base, k, modelo);
            assert Alcance(k - 1, qtde - 1);
          }
        }
      }
    } else if r.Some? {
      assert Alcance(0, qtde) && PrimeiroExistente(base, modelo, 0, existe, r.value);
    }
  }

  /** Level k of base is level k - 1 of its parent. */
  lemma CandidatoSobe(base: string, k: nat, modelo: string)
    requires k >= 1
    ensures Candidato(base, k, modelo) == Candidato(Cortar(base), k - 1, modelo)
  {
  }

  /** The first existing level of the parent, when level 0 does not exist, is the next one of base. */
  lemma PrimeiroSobe(base: string, modelo: string, k: nat, existe: set<string>, v: string)
    requires Candidato(base, 0, modelo) !in existe
    requires PrimeiroExistente(Cortar(base), modelo, k, existe, v)
    ensures PrimeiroExistente(base, modelo, k + 1, existe, v)
  {
    CandidatoSobe(base, k + 1, modelo);
    forall j: nat | j < k + 1 ensures Candidato(base, j, modelo) !in existe {
      if j > 0 {
        CandidatoSobe(base, j, modelo);
      }
    }
  }

  // ------------------------------------------------------------------ obterInfos

  /** end(explode(c, s)): the text after the last c, or all of s. */
  function DepoisDoUltimo(s: string, c: char): (r: string)
    ensures c !in r && EndsWith(s, r)
    ensures |r| < |s| ==> s[|s| - |r| - 1] == c
    ensures c !in s ==> r == s
    decreases |s|
  {
    if s == [] then []
    else if s[|s| - 1] == c then []
    else
      var r := DepoisDoUltimo(s[..|s| - 1], c) + [s[|s| - 1]];
      assert s[..|s| - 1] + [s[|s| - 1]] == s;
      r
  }

  lemma {:induction false} SplitUltima(x: string, t: string, c: char)
    requires c !in t
    ensures |Split(x + [c] + t, c)| >= 2
    ensures Split(x + [c] + t, c)[|Split(x + [c] + t, c)| - 1] == t
    decreases |x|
  {
    var s := x + [c] + t;
    if x == [] {
      assert s[1..] == t;
      SplitNoSeparator(t, c);
    } else {
      assert s[1..] == x[1..] + [c] + t;
      SplitUltima(x[1..], t, c);
    }
  }

  /** The last piece of explode is the text after the last separator. */
  lemma UltimaParte(s: string, c: char)
    ensures Split(s, c)[|Split(s, c)| - 1] == DepoisDoUltimo(s, c)
  {
    var t := DepoisDoUltimo(s, c);
    if c in s {
      var x := s[..|s| - |t| - 1];
      assert s == x + [c] + t;
      SplitUltima(x, t, c);
    } else {
      SplitNoSeparator(s, c);
    }
  }

  /** basename: the last '/'-component once trailing slashes are dropped. */
  function Basename(caminho: string): (r: string)
    ensures '/' !in r
  {
    DepoisDoUltimo(TrimRight(caminho, {'/'}), '/')
  }

  /** The characters of a suffix of s are characters of s. */
  lemma SufixoSemChar(s: string, t: string, c: char)
    requires c !in s && EndsWith(s, t)
    ensures c !in t
  {
    forall i | 0 <= i < |t| ensures t[i] != c {
      assert t[i] == s[|s| - |t| + i];
    }
  }

  /** end(explode('.', b)): the text after the last '.' of b. */
  function UltimoPedaco(b: string): (r: string)
    requires '/' !in b
    ensures '.' !in r && '/' !in r
    ensures EndsWith(b, r) && (|r| < |b| ==> b[|b| - |r| - 1] == '.')
  {
    var partes := Split(b, '.');
    UltimaParte(b, '.');
    SufixoSemChar(b, DepoisDoUltimo(b, '.'), '/');
    partes[|partes| - 1]
  }

  /** The nome of obterInfos: end(explode('.', basename(caminho))), the text after the last '.'. */
  function NomeArquivo(caminho: string): (r: string)
    ensures '.' !in r && '/' !in r
    ensures var b := Basename(caminho);
      EndsWith(b, r) && (|r| < |b| ==> b[|b| - |r| - 1] == '.')
  {
    UltimoPedaco(Basename(caminho))
  }

  datatype Infos = Infos(nome: string, mimeType: string, encoding: string, extensao: Value, tamanho: nat)

  /**
   * obterInfos: the name, and as extensao the value the extension table holds
   * for the mime type in the first group listing it, null when no group does;
   * mime type, encoding and size are inputs.
   */
  function ObterInfos(caminho: string, extensoes: seq<(Key, Value)>, mimeType: string, encoding: string, tamanho: nat): (r: Infos)
    ensures r.nome == NomeArquivo(caminho)
    ensures (forall i :: 0 <= i < |extensoes| ==> !Vetores.GroupHas(extensoes[i].1, AsKey(Str(mimeType)))) ==> r.extensao == Null
    ensures r.mimeType == mimeType && r.encoding == encoding && r.tamanho == tamanho
  {
    var ext := Vetores.BuscarChaveRecursivo(extensoes, AsKey(Str(mimeType)));
    Infos(NomeArquivo(caminho), mimeType, encoding, if ext.Some? then ext.value else Null, tamanho)
  }

  /** A mime type listed by some group gets the value of the first group that lists it. */
  lemma ExtensaoPrimeiroGrupo(caminho: string, extensoes: seq<(Key, Value)>, mimeType: string, encoding: string, tamanho: nat, i: int)
    requires 0 <= i < |extensoes| && Vetores.GroupHas(extensoes[i].1, AsKey(Str(mimeType)))
    requires forall j :: 0 <= j < i ==> !Vetores.GroupHas(extensoes[j].1, AsKey(Str(mimeType)))
    ensures Some(ObterInfos(caminho, extensoes, mimeType, encoding, tamanho).extensao) ==
      Get(extensoes[i].1.entries, AsKey(Str(mimeType)))
  {
    var k := AsKey(Str(mimeType));
    var ext := Vetores.BuscarChaveRecursivo(extensoes, k);
    var i' :| 0 <= i' < |extensoes| && Vetores.GroupHas(extensoes[i'].1, k) &&
      (forall j :: 0 <= j < i' ==> !Vetores.GroupHas(extensoes[j].1, k)) && Get(extensoes[i'].1.entries, k) == ext;
    assert i' == i;
  }
}
