// The DLX class (dlx/dlx.classe.php): the framework's configuration (a nested
// PHP array read through config() and merged by alterarConfiguracao), the
// route table handed to the router (method => route => target), the request
// URL, and the class-name to file-path rule of the autoloader.

module Dlx {
  import opened Wrappers
  import opened Text
  import opened Values
  import opened Assoc
  import opened Filtros
  import Strings
  import Arquivos
  import Controle
  import Roteador

  // -------------------------------------------------------------- config()

  /**
   * config(grupo, nome): the whole configuration when both are empty, the
   * group when only the name is empty, the entry when both name a present
   * entry; null for anything missing.
   */
  function Consultar(cfg: seq<(Key, Value)>, grupo: Option<string>, nome: Option<string>): (r: Value)
    ensures Vazio(grupo) && Vazio(nome) ==> r == Arr(cfg)
    ensures !Vazio(grupo) && Vazio(nome) ==>
      r == (if HasKey(cfg, Chave(grupo)) then Get(cfg, Chave(grupo)).value else Null)
    ensures !Vazio(nome) && r != Null ==>
      exists g :: Get(cfg, Chave(grupo)) == Some(Arr(g)) && Get(g, Chave(nome)) == Some(r)
    ensures !Vazio(nome) ==> forall g :: Get(cfg, Chave(grupo)) == Some(Arr(g)) && HasKey(g, Chave(nome)) ==>
      r == Get(g, Chave(nome)).value
  {
    if Vazio(grupo) && Vazio(nome) then Arr(cfg)
    else if !Vazio(grupo) && Vazio(nome) then
      (if HasKey(cfg, Chave(grupo)) then Get(cfg, Chave(grupo)).value else Null)
    else
      var g := Get(cfg, Chave(grupo));
      if g.Some? && g.value.Arr? && HasKey(g.value.entries, Chave(nome)) then Get(g.value.entries, Chave(nome)).value
      else Null
  }

  /** empty() of an optional string argument. */
  predicate Vazio(x: Option<string>)
  {
    x.None? || Empty(Str(x.value))
  }

  /** The array key an optional string argument reads as (null is ""). */
  function Chave(x: Option<string>): Key
  {
    AsKey(Str(x.GetOr("")))
  }

  // ------------------------------------------------- array_replace_recursive

  /**
   * array_replace_recursive(base, nova) over the first n entries of nova: each
   * entry replaces the value under its key, except that an array replacing an
   * array is merged into it the same way.
   */
  function Substituir(base: seq<(Key, Value)>, nova: Value, n: nat): seq<(Key, Value)>
    requires nova.Arr? && n <= |nova.entries|
    decreases nova, n
  {
    if n == 0 then base
    else
      var acc := Substituir(base, nova, n - 1);
      var (k, v) := nova.entries[n - 1];
      var antigo := Get(acc, k);
      if v.Arr? && antigo.Some? && antigo.value.Arr? then
        Put(acc, k, Arr(Substituir(antigo.value.entries, v, |v.entries|)))
      else Put(acc, k, v)
  }

  function ArrayReplaceRecursive(base: seq<(Key, Value)>, nova: seq<(Key, Value)>): seq<(Key, Value)>
  {
    Substituir(base, Arr(nova), |nova|)
  }

  /** What a key holds after the merge, from what it held before and the replacement given for it. */
  function Mesclado(antigo: Option<Value>, novo: Option<Value>): Option<Value>
  {
    match novo
    case None => antigo
    case Some(v) =>
      if v.Arr? && antigo.Some? && antigo.value.Arr? then Some(Arr(ArrayReplaceRecursive(antigo.value.entries, v.entries)))
      else Some(v)
  }

  /** With unique keys, the entries before position n - 1 do not hold its key. */
  lemma PrefixoSemChave(e: seq<(Key, Value)>, n: nat)
    requires UniqueKeys(e) && 0 < n <= |e|
    ensures !HasKey(e[..n - 1], e[n - 1].0)
  {
    var p := e[..n - 1];
    forall j | 0 <= j < |p| ensures p[j].0 != e[n - 1].0 {
      assert p[j] == e[j];
    }
  }

  lemma {:induction false} GetSubstituir(base: seq<(Key, Value)>, nova: Value, n: nat, k: Key)
    requires nova.Arr? && n <= |nova.entries| && UniqueKeys(nova.entries)
    ensures Get(Substituir(base, nova, n), k) == Mesclado(Get(base, k), Get(nova.entries[..n], k))
    decreases n
  {
    if n > 0 {
      GetSubstituir(base, nova, n - 1, k);
      if k == nova.entries[n - 1].0 {
        GetSubstituirMesma(base, nova, n);
      } else {
        GetSubstituirOutra(base, nova, n, k);
      }
    }
  }

  /** The last entry read as a lookup: the prefix up to n answers its key with its value. */
  lemma GetPrefixoMesma(base: seq<(Key, Value)>, nova: Value, n: nat)
    requires nova.Arr? && 0 < n <= |nova.entries| && UniqueKeys(nova.entries)
    ensures Get(nova.entries[..n - 1], nova.entries[n - 1].0) == None
    ensures Get(nova.entries[..n], nova.entries[n - 1].0) == Some(nova.entries[n - 1].1)
  {
    var e := nova.entries;
    var pre, ult := e[..n - 1], e[n - 1];
    assert e[..n] == pre + [ult];
    PrefixoSemChave(e, n);
    GetAppend(pre, [ult], ult.0);
  }

  lemma GetSubstituirMesma(base: seq<(Key, Value)>, nova: Value, n: nat)
    requires nova.Arr? && 0 < n <= |nova.entries| && UniqueKeys(nova.entries)
    requires Get(Substituir(base, nova, n - 1), nova.entries[n - 1].0)
      == Mesclado(Get(base, nova.entries[n - 1].0), Get(nova.entries[..n - 1], nova.entries[n - 1].0))
    ensures Get(Substituir(base, nova, n), nova.entries[n - 1].0)
      == Mesclado(Get(base, nova.entries[n - 1].0), Get(nova.entries[..n], nova.entries[n - 1].0))
  {
    GetPrefixoMesma(base, nova, n);
    SubstituirMesmaChave(base, nova, n);
  }

  lemma GetSubstituirOutra(base: seq<(Key, Value)>, nova: Value, n: nat, k: Key)
    requires nova.Arr? && 0 < n <= |nova.entries| && k != nova.entries[n - 1].0
    requires Get(Substituir(base, nova, n - 1), k) == Mesclado(Get(base, k), Get(nova.entries[..n - 1], k))
    ensures Get(Substituir(base, nova, n), k) == Mesclado(Get(base, k), Get(nova.entries[..n], k))
  {
    GetPrefixoOutra(nova.entries, n, k);
    SubstituirOutraChave(base, nova, n, k);
  }

  lemma GetPrefixoOutra(e: seq<(Key, Value)>, n: nat, k: Key)
    requires 0 < n <= |e| && k != e[n - 1].0
    ensures Get(e[..n], k) == Get(e[..n - 1], k)
  {
    var pre, ult := e[..n - 1], e[n - 1];
    assert e[..n] == pre + [ult];
    GetAppend(pre, [ult], k);
    assert [ult][1..] == [];
  }

  /** The n-th entry's key holds its value merged into what that key held before. */
  lemma SubstituirMesmaChave(base: seq<(Key, Value)>, nova: Value, n: nat)
    requires nova.Arr? && 0 < n <= |nova.entries|
    requires Get(Substituir(base, nova, n - 1), nova.entries[n - 1].0) == Get(base, nova.entries[n - 1].0)
    ensures Get(Substituir(base, nova, n), nova.entries[n - 1].0) == Mesclado(Get(base, nova.entries[n - 1].0), Some(nova.entries[n - 1].1))
  {
    var acc := Substituir(base, nova, n - 1);
    var kn, v := nova.entries[n - 1].0, nova.entries[n - 1].1;
    var antigo := Get(acc, kn);
    var x := if v.Arr? && antigo.Some? && antigo.value.Arr? then Arr(Substituir(antigo.value.entries, v, |v.entries|)) else v;
    assert Substituir(base, nova, n) == Put(acc, kn, x);
    GetPut(acc, kn, x, kn);
    if v.Arr? && antigo.Some? && antigo.value.Arr? {
      assert v == Arr(v.entries);
    }
  }

  /** Any other key is untouched by the n-th entry. */
  lemma SubstituirOutraChave(base: seq<(Key, Value)>, nova: Value, n: nat, k: Key)
    requires nova.Arr? && 0 < n <= |nova.entries| && k != nova.entries[n - 1].0
    ensures Get(Substituir(base, nova, n), k) == Get(Substituir(base, nova, n - 1), k)
  {
    var acc := Substituir(base, nova, n - 1);
    var (kn, v) := nova.entries[n - 1];
    var antigo := Get(acc, kn);
    var x := if v.Arr? && antigo.Some? && antigo.value.Arr? then Arr(Substituir(antigo.value.entries, v, |v.entries|)) else v;
    GetPut(acc, kn, x, k);
  }

  /**
   * alterarConfiguracao's merge, key by key: a key the new configuration does
   * not give keeps its value, a given array merges into an array, and any other
   * given value replaces the old one.
   */
  lemma ArrayReplaceRecursiveGet(base: seq<(Key, Value)>, nova: seq<(Key, Value)>, k: Key)
    requires UniqueKeys(nova)
    ensures Get(ArrayReplaceRecursive(base, nova), k) == Mesclado(Get(base, k), Get(nova, k))
  {
    GetSubstituir(base, Arr(nova), |nova|, k);
    assert nova[..|nova|] == nova;
  }

  /** A group the new configuration does not mention answers config() as before. */
  lemma ConfigGrupoMantido(base: seq<(Key, Value)>, nova: seq<(Key, Value)>, grupo: string, nome: Option<string>)
    requires UniqueKeys(nova) && !Empty(Str(grupo)) && !HasKey(nova, AsKey(Str(grupo)))
    ensures Consultar(ArrayReplaceRecursive(base, nova), Some(grupo), nome) == Consultar(base, Some(grupo), nome)
  {
    ArrayReplaceRecursiveGet(base, nova, AsKey(Str(grupo)));
  }

  /**
   * Inside a group that both configurations hold as arrays, an entry the new
   * group gives wins (merged when both are arrays) and every other entry keeps
   * its old value.
   */
  lemma ConfigEntradaMesclada(base: seq<(Key, Value)>, nova: seq<(Key, Value)>, grupo: string, nome: string,
                              g0: seq<(Key, Value)>, g1: seq<(Key, Value)>)
    requires UniqueKeys(nova) && UniqueKeys(g1)
    requires Get(base, AsKey(Str(grupo))) == Some(Arr(g0)) && Get(nova, AsKey(Str(grupo))) == Some(Arr(g1))
    ensures Get(ArrayReplaceRecursive(base, nova), AsKey(Str(grupo))) == Some(Arr(ArrayReplaceRecursive(g0, g1)))
    ensures Get(ArrayReplaceRecursive(g0, g1), AsKey(Str(nome))) == Mesclado(Get(g0, AsKey(Str(nome))), Get(g1, AsKey(Str(nome))))
  {
    ArrayReplaceRecursiveGet(base, nova, AsKey(Str(grupo)));
    ArrayReplaceRecursiveGet(g0, g1, AsKey(Str(nome)));
  }

  // ------------------------------------------------------------------ routes

  /** The key of a request method ("get", "post") or of a route pattern. */
  function ChaveTexto(s: string): Key
  {
    AsKey(Str(s))
  }

  /** The routes registered for a method; none when the method has no table. */
  function Tabela(rotas: seq<(Key, Value)>, metodo: string): seq<(Key, Value)>
  {
    var t := Get(rotas, ChaveTexto(metodo));
    if t.Some? && t.value.Arr? then t.value.entries else []
  }

  /**
   * The "/-" jump adicionarRota puts before URL parameters when the
   * application has a home: on a string target, or on the string params of an
   * array target; any other target is kept.
   */
  function Pulo(cfg: Value): (r: Value)
    ensures cfg.Str? ==> r == Str("/-" + cfg.s)
    ensures !cfg.Str? && !cfg.Arr? ==> r == cfg
  {
    match cfg
    case Str(s) => Str("/-" + s)
    case Arr(e) =>
      var p := Get(e, StrKey("params"));
      if p.Some? && p.value.Str? then Arr(Put(e, StrKey("params"), Str("/-" + p.value.s))) else cfg
    case _ => cfg
  }

  /**
   * adicionarRota for one method: a route already under the raw pattern is kept
   * unless sobrepor; otherwise the target, with the "/-" jump when home is not
   * empty, is stored under the pattern with %home% replaced by home.
   */
  function AdicionarEm(rotas: seq<(Key, Value)>, home: Value, rota: string, cfg: Value, metodo: string, sobrepor: bool): seq<(Key, Value)>
  {
    var t := Tabela(rotas, metodo);
    if HasKey(t, ChaveTexto(rota)) && !sobrepor then rotas
    else
      var chave := ReplaceAll(rota, "%home%", ValueText(home));
      var alvo := if Empty(home) then cfg else Pulo(cfg);
      Put(rotas, ChaveTexto(metodo), Arr(Put(t, ChaveTexto(chave), alvo)))
  }

  /** adicionarRota over a list of methods, one after the other. */
  function AdicionarTodos(rotas: seq<(Key, Value)>, home: Value, rota: string, cfg: Value, metodos: seq<string>, sobrepor: bool): seq<(Key, Value)>
    decreases |metodos|
  {
    if metodos == [] then rotas
    else
      var m := metodos[|metodos| - 1];
      AdicionarEm(AdicionarTodos(rotas, home, rota, cfg, metodos[..|metodos| - 1], sobrepor), home, rota, cfg, m, sobrepor)
  }

  /** excluirRota for one method: unset($rotas[metodo][rota]). */
  function ExcluirEm(rotas: seq<(Key, Value)>, rota: string, metodo: string): seq<(Key, Value)>
  {
    var t := Get(rotas, ChaveTexto(metodo));
    if t.Some? && t.value.Arr? then Put(rotas, ChaveTexto(metodo), Arr(Remove(t.value.entries, ChaveTexto(rota))))
    else rotas
  }

  function ExcluirTodos(rotas: seq<(Key, Value)>, rota: string, metodos: seq<string>): seq<(Key, Value)>
    decreases |metodos|
  {
    if metodos == [] then rotas
    else ExcluirEm(ExcluirTodos(rotas, rota, metodos[..|metodos| - 1]), rota, metodos[|metodos| - 1])
  }

  /** The table of a method after adding to one method m. */
  lemma TabelaAdicionarEm(rotas: seq<(Key, Value)>, home: Value, rota: string, cfg: Value, m: string, sobrepor: bool, m': string)
    ensures var t := Tabela(rotas, m);
      Tabela(AdicionarEm(rotas, home, rota, cfg, m, sobrepor), m') ==
        if ChaveTexto(m') != ChaveTexto(m) || (HasKey(t, ChaveTexto(rota)) && !sobrepor) then Tabela(rotas, m')
        else Put(t, ChaveTexto(ReplaceAll(rota, "%home%", ValueText(home))), if Empty(home) then cfg else Pulo(cfg))
  {
    var t := Tabela(rotas, m);
    var chave := ReplaceAll(rota, "%home%", ValueText(home));
    var alvo := if Empty(home) then cfg else Pulo(cfg);
    GetPut(rotas, ChaveTexto(m), Arr(Put(t, ChaveTexto(chave), alvo)), ChaveTexto(m'));
  }

  /**
   * A new pattern (or any pattern with sobrepor) is stored, %home% replaced,
   * with its target; a pattern already present without sobrepor leaves the
   * whole table as it was.
   */
  lemma RotaAdicionada(rotas: seq<(Key, Value)>, home: Value, rota: string, cfg: Value, m: string, sobrepor: bool)
    ensures HasKey(Tabela(rotas, m), ChaveTexto(rota)) && !sobrepor ==> AdicionarEm(rotas, home, rota, cfg, m, sobrepor) == rotas
    ensures !HasKey(Tabela(rotas, m), ChaveTexto(rota)) || sobrepor ==>
      Get(Tabela(AdicionarEm(rotas, home, rota, cfg, m, sobrepor), m), ChaveTexto(ReplaceAll(rota, "%home%", ValueText(home)))) ==
        Some(if Empty(home) then cfg else Pulo(cfg))
  {
    TabelaAdicionarEm(rotas, home, rota, cfg, m, sobrepor, m);
    var t := Tabela(rotas, m);
    GetPut(t, ChaveTexto(ReplaceAll(rota, "%home%", ValueText(home))), if Empty(home) then cfg else Pulo(cfg),
           ChaveTexto(ReplaceAll(rota, "%home%", ValueText(home))));
  }

  /** Adding never drops a route: every pattern stays registered. */
  lemma AdicionarEmMantem(rotas: seq<(Key, Value)>, home: Value, rota: string, cfg: Value, m: string, sobrepor: bool, m': string, k: Key)
    requires HasKey(Tabela(rotas, m'), k)
    ensures HasKey(Tabela(AdicionarEm(rotas, home, rota, cfg, m, sobrepor), m'), k)
  {
    TabelaAdicionarEm(rotas, home, rota, cfg, m, sobrepor, m');
    var t := Tabela(rotas, m);
    var chave := ChaveTexto(ReplaceAll(rota, "%home%", ValueText(home)));
    GetPut(t, chave, if Empty(home) then cfg else Pulo(cfg), k);
  }

  /** Registered under a method: the raw pattern (kept) or the one with %home% replaced (added). */
  predicate Registrada(rotas: seq<(Key, Value)>, home: Value, rota: string, m: string)
  {
    HasKey(Tabela(rotas, m), ChaveTexto(rota)) ||
    HasKey(Tabela(rotas, m), ChaveTexto(ReplaceAll(rota, "%home%", ValueText(home))))
  }

  /** With a list of methods the route ends up registered under each of them. */
  lemma {:induction false} AdicionarTodosRegistra(rotas: seq<(Key, Value)>, home: Value, rota: string, cfg: Value,
                                                  metodos: seq<string>, sobrepor: bool, m: string)
    requires m in metodos
    ensures Registrada(AdicionarTodos(rotas, home, rota, cfg, metodos, sobrepor), home, rota, m)
    decreases |metodos|
  {
    var ini := metodos[..|metodos| - 1];
    var ult := metodos[|metodos| - 1];
    var antes := AdicionarTodos(rotas, home, rota, cfg, ini, sobrepor);
    assert metodos == ini + [ult];
    if m == ult {
      RotaAdicionada(antes, home, rota, cfg, m, sobrepor);
    } else {
      assert m in ini;
      AdicionarTodosRegistra(rotas, home, rota, cfg, ini, sobrepor, m);
      var t := Tabela(antes, m);
      if HasKey(t, ChaveTexto(rota)) {
        AdicionarEmMantem(antes, home, rota, cfg, ult, sobrepor, m, ChaveTexto(rota));
      } else {
        AdicionarEmMantem(antes, home, rota, cfg, ult, sobrepor, m, ChaveTexto(ReplaceAll(rota, "%home%", ValueText(home))));
      }
    }
  }

  /** The table of a method that is not in the list does not change. */
  lemma {:induction false} AdicionarTodosOutros(rotas: seq<(Key, Value)>, home: Value, rota: string, cfg: Value,
                                                metodos: seq<string>, sobrepor: bool, m: string)
    requires forall x :: x in metodos ==> ChaveTexto(x) != ChaveTexto(m)
    ensures Tabela(AdicionarTodos(rotas, home, rota, cfg, metodos, sobrepor), m) == Tabela(rotas, m)
    decreases |metodos|
  {
    if metodos != [] {
      var ini := metodos[..|metodos| - 1];
      var ult := metodos[|metodos| - 1];
      assert ult in metodos;
      AdicionarTodosOutros(rotas, home, rota, cfg, ini, sobrepor, m);
      TabelaAdicionarEm(AdicionarTodos(rotas, home, rota, cfg, ini, sobrepor), home, rota, cfg, ult, sobrepor, m);
    }
  }

  /** excluirRota removes that pattern from that method and changes no other route. */
  lemma ExcluirEmSo(rotas: seq<(Key, Value)>, rota: string, m: string, m': string, k: Key)
    requires Get(rotas, ChaveTexto(m)).Some? ==> Get(rotas, ChaveTexto(m)).value.Arr?
    ensures Get(Tabela(ExcluirEm(rotas, rota, m), m'), k) ==
      if ChaveTexto(m') == ChaveTexto(m) && k == ChaveTexto(rota) then None else Get(Tabela(rotas, m'), k)
  {
    match Get(rotas, ChaveTexto(m))
    case Some(t) =>
      GetPut(rotas, ChaveTexto(m), Arr(Remove(t.entries, ChaveTexto(rota))), ChaveTexto(m'));
      GetRemove(t.entries, ChaveTexto(rota), k);
    case None =>
  }

  /** Over a list of methods: the pattern is gone from each listed method, and every other route keeps its target. */
  lemma {:induction false} ExcluirTodosSo(rotas: seq<(Key, Value)>, rota: string, metodos: seq<string>, m': string, k: Key)
    requires forall x :: Get(rotas, x).Some? ==> Get(rotas, x).value.Arr?
    ensures forall x :: Get(ExcluirTodos(rotas, rota, metodos), x).Some? ==> Get(ExcluirTodos(rotas, rota, metodos), x).value.Arr?
    ensures Get(Tabela(ExcluirTodos(rotas, rota, metodos), m'), k) ==
      if k == ChaveTexto(rota) && exists x :: x in metodos && ChaveTexto(x) == ChaveTexto(m') then None
      else Get(Tabela(rotas, m'), k)
    decreases |metodos|
  {
    if metodos != [] {
      var ini := metodos[..|metodos| - 1];
      var ult := metodos[|metodos| - 1];
      var antes := ExcluirTodos(rotas, rota, ini);
      ExcluirTodosSo(rotas, rota, ini, m', k);
      ExcluirEmSo(antes, rota, ult, m', k);
      ExcluirEmArr(antes, rota, ult);
      assert ult in metodos;
      assert forall x :: x in metodos <==> x in ini || x == ult;
    }
  }

  /** excluirRota leaves every method's table an array. */
  lemma ExcluirEmArr(rotas: seq<(Key, Value)>, rota: string, m: string)
    requires forall x :: Get(rotas, x).Some? ==> Get(rotas, x).value.Arr?
    ensures forall x :: Get(ExcluirEm(rotas, rota, m), x).Some? ==> Get(ExcluirEm(rotas, rota, m), x).value.Arr?
  {
    forall x ensures Get(ExcluirEm(rotas, rota, m), x).Some? ==> Get(ExcluirEm(rotas, rota, m), x).value.Arr? {
      match Get(rotas, ChaveTexto(m))
      case Some(t) =>
        GetPut(rotas, ChaveTexto(m), Arr(Remove(t.entries, ChaveTexto(rota))), x);
      case None =>
    }
  }

  // ------------------------------------------------------------------ setURL

  /** setURL: the sanitized URL (null as "") with every "index.php" removed in one left-to-right pass. */
  function UrlLimpa(url: string): string
  {
    var s := SanitizarOuNulo(url);
    ReplaceAll(if s.Some? then s.value else "", "index.php", "")
  }

  /** A URL without "index.php" is only sanitized. */
  lemma UrlSemIndex(url: string)
    ensures !Occurs(Sanitizar(url), "index.php") ==> UrlLimpa(url) == Sanitizar(url)
  {
    if !Occurs(Sanitizar(url), "index.php") {
      ReplaceAbsent(Sanitizar(url), "index.php", "");
    }
  }

  /** A leading "index.php" is dropped and the rest is treated the same way. */
  lemma UrlSemIndexInicial(resto: string)
    ensures ReplaceAll("index.php" + resto, "index.php", "") == ReplaceAll(resto, "index.php", "")
  {
    var s := "index.php" + resto;
    assert s[..9] == "index.php" && s[9..] == resto;
  }

  // ---------------------------------------------------------------- autoload

  /** preg_replace('~s$~', '', tipo): a final 's' is dropped, also just before a final newline. */
  function SemSFinal(t: string): (r: string)
    ensures |r| <= |t|
  {
    if EndsWith(t, "s") then t[..|t| - 1]
    else if EndsWith(t, "s\n") then t[..|t| - 2] + "\n"
    else t
  }

  /**
   * The file autoloadClasses looks for: for App\Modulo\Tipo\Classe the
   * lower-cased "aplicativos/{app}/modulos/{modulo}/{tipo}/{classe}.{tipo without s}.php"
   * (app and module through PSR2URL); for a three-part name its lower-cased
   * path, searched in the ancestors of the application directory when it
   * starts with "comum"; false (None) for any other number of parts or when
   * the ancestor search finds nothing.
   */
  function ArquivoClasse(classe: string, aplicativo: Option<string>, existe: set<string>): (r: Option<string>)
    ensures |Split(classe, '\\')| != 3 && |Split(classe, '\\')| != 4 ==> r.None?
    ensures |Split(classe, '\\')| == 4 ==> r.Some?
  {
    var f := Split(classe, '\\');
    if |f| == 4 then
      Some(Lower("aplicativos/" + Strings.PSR2URL(f[0]) + "/modulos/" + Strings.PSR2URL(f[1]) + "/" + f[2] + "/" + f[3] + "." + SemSFinal(f[2]) + ".php"))
    else if |f| == 3 then
      var baixa := Lower(classe);
      var pb := Split(baixa, '\\');
      var tipo := if |pb| > 1 then pb[1] else "";
      var arquivo := ReplaceAll(baixa, "\\", "/") + "." + SemSFinal(tipo) + ".php";
      if StartsWith(arquivo, "comum") then
        var base := "aplicativos/" + aplicativo.GetOr("") + "/";
        Arquivos.Busca(Arquivos.Modelo(arquivo, base), base, 5, existe)
      else Some(arquivo)
    else None
  }

  /** autoloadClasses: the file is required only when it exists; otherwise false. */
  function AutoloadClasses(classe: string, aplicativo: Option<string>, existe: set<string>): (r: Option<string>)
    ensures r.Some? ==> r.value in existe && r == ArquivoClasse(classe, aplicativo, existe)
    ensures ArquivoClasse(classe, aplicativo, existe).Some? && ArquivoClasse(classe, aplicativo, existe).value in existe ==> r.Some?
  {
    var a := ArquivoClasse(classe, aplicativo, existe);
    if a.Some? && a.value in existe then a else None
  }

  /** A four-part class name, written as its parts joined by '\', maps to its module's directory. */
  lemma ArquivoClasseQuatroPartes(app: string, modulo: string, tipo: string, nome: string, aplicativo: Option<string>, existe: set<string>)
    requires '\\' !in app && '\\' !in modulo && '\\' !in tipo && '\\' !in nome
    ensures ArquivoClasse(Join([app, modulo, tipo, nome], "\\"), aplicativo, existe) ==
      Some(Lower("aplicativos/" + Strings.PSR2URL(app) + "/modulos/" + Strings.PSR2URL(modulo) + "/" + tipo + "/" + nome + "." + SemSFinal(tipo) + ".php"))
  {
    var p := [app, modulo, tipo, nome];
    SplitJoin(p, '\\');
  }

  // -------------------------------------------------------------- the class

  /** The configuration a DLX object starts with. */
  const CONFIG_PADRAO: seq<(Key, Value)> := [
    (StrKey("aplicativo"), Arr([
      (StrKey("raiz"), Str("/")),
      (StrKey("home"), Str("")),
      (StrKey("nome"), Str("Framework DLX")),
      (StrKey("idioma"), Str("pt_BR")),
      (StrKey("encoding"), Str("UTF-8")),
      (StrKey("dir-imgs"), Str("web/imgs/")),
      (StrKey("dir-js"), Str("web/js/")),
      (StrKey("favicon"), Str("web/imgs/favicon.ico"))])),
    (StrKey("bd"), Arr([
      (StrKey("dsn"), Str("mysql:host=localhost")),
      (StrKey("usuario"), Str("root")),
      (StrKey("senha"), Str("")),
      (StrKey("formato-data"), Arr([
        (StrKey("data"), Str("Y-m-d")),
        (StrKey("hora"), Str("H:i:s")),
        (StrKey("completo"), Str("Y-m-d H:i:s"))]))])),
    (StrKey("autenticacao"), Bool(false))]

  /** The route table a DLX object starts with: empty tables for get and post. */
  const ROTAS_PADRAO: seq<(Key, Value)> := [(StrKey("get"), Arr([])), (StrKey("post"), Arr([]))]

  class DLX {
    var config: seq<(Key, Value)>
    var rotas: seq<(Key, Value)>
    var aplicativo: Option<string>
    var ambiente: Option<string>
    var url: string
    var moduloAtual: Option<string>

    /**
     * The constructor's setters and the default configuration and routes;
     * loading the configuration file is CarregarConfiguracao.
     */
    constructor (aplicativo0: string, ambiente0: string, url0: string)
      ensures aplicativo == SanitizarOuNulo(aplicativo0) && ambiente == SanitizarOuNulo(ambiente0)
      ensures url == UrlLimpa(url0) && moduloAtual.None?
      ensures config == CONFIG_PADRAO && rotas == ROTAS_PADRAO
    {
      aplicativo := SanitizarOuNulo(aplicativo0);
      ambiente := SanitizarOuNulo(ambiente0);
      url := UrlLimpa(url0);
      moduloAtual := None;
      config := CONFIG_PADRAO;
      rotas := ROTAS_PADRAO;
    }

    /** setAplicativo: sanitized, and null when that leaves nothing. */
    method SetAplicativo(a: string)
      modifies this
      ensures aplicativo == SanitizarOuNulo(a)
      ensures config == old(config) && rotas == old(rotas) && ambiente == old(ambiente) && url == old(url) && moduloAtual == old(moduloAtual)
    {
      aplicativo := SanitizarOuNulo(a);
    }

    method SetAmbiente(a: string)
      modifies this
      ensures ambiente == SanitizarOuNulo(a)
      ensures config == old(config) && rotas == old(rotas) && aplicativo == old(aplicativo) && url == old(url) && moduloAtual == old(moduloAtual)
    {
      ambiente := SanitizarOuNulo(a);
    }

    method SetModuloAtual(m: string)
      modifies this
      ensures moduloAtual == SanitizarOuNulo(m)
      ensures config == old(config) && rotas == old(rotas) && aplicativo == old(aplicativo) && ambiente == old(ambiente) && url == old(url)
    {
      moduloAtual := SanitizarOuNulo(m);
    }

    /** setURL: see UrlLimpa. */
    method SetURL(u: string)
      modifies this
      ensures url == UrlLimpa(u)
      ensures config == old(config) && rotas == old(rotas) && aplicativo == old(aplicativo) && ambiente == old(ambiente) && moduloAtual == old(moduloAtual)
    {
      url := UrlLimpa(u);
    }

    /** alterarConfiguracao: the configuration becomes array_replace_recursive(config, nova). */
    method AlterarConfiguracao(nova: seq<(Key, Value)>)
      modifies this
      ensures config == ArrayReplaceRecursive(old(config), nova)
      ensures rotas == old(rotas) && aplicativo == old(aplicativo) && ambiente == old(ambiente) && url == old(url) && moduloAtual == old(moduloAtual)
    {
      config := ArrayReplaceRecursive(config, nova);
    }

    /**
     * carregarConfiguracao: a missing config.inc.php throws 404; a file that
     * defines $config merges it in (existence and the file's $config are inputs).
     */
    method CarregarConfiguracao(existe: bool, definida: Option<seq<(Key, Value)>>) returns (r: Outcome<()>)
      modifies this
      ensures r.Throw? <==> !existe
      ensures r.Throw? ==> r.code == 404 && unchanged(this)
      ensures r.Ok? ==> config == (if definida.Some? then ArrayReplaceRecursive(old(config), definida.value) else old(config))
      ensures rotas == old(rotas) && aplicativo == old(aplicativo) && ambiente == old(ambiente) && url == old(url) && moduloAtual == old(moduloAtual)
    {
      if !existe {
        return Throw(404, "Arquivo de configuração <b>config.inc.php</b> não encontrado.");
      }
      if definida.Some? {
        AlterarConfiguracao(definida.value);
      }
      r := Ok(());
    }

    /** adicionarRota for a single method. */
    method AdicionarRotaEm(rota: string, cfg: Value, metodo: string, sobrepor: bool)
      modifies this
      ensures rotas == AdicionarEm(old(rotas), Consultar(config, Some("aplicativo"), Some("home")), rota, cfg, metodo, sobrepor)
      ensures config == old(config) && aplicativo == old(aplicativo) && ambiente == old(ambiente) && url == old(url) && moduloAtual == old(moduloAtual)
    {
      var t := Tabela(rotas, metodo);
      if !HasKey(t, ChaveTexto(rota)) || sobrepor {
        var home := Consultar(config, Some("aplicativo"), Some("home"));
        var chave := ReplaceAll(rota, "%home%", ValueText(home));
        var alvo := cfg;
        if !Empty(home) {
          alvo := Pulo(cfg);
        }
        rotas := Put(rotas, ChaveTexto(metodo), Arr(Put(t, ChaveTexto(chave), alvo)));
      }
    }

    /** adicionarRota: the route is added for each listed method in turn (a single method is a one-element list, null none). */
    method AdicionarRota(rota: string, cfg: Value, metodos: seq<string>, sobrepor: bool)
      modifies this
      ensures rotas == AdicionarTodos(old(rotas), Consultar(config, Some("aplicativo"), Some("home")), rota, cfg, metodos, sobrepor)
      ensures config == old(config) && aplicativo == old(aplicativo) && ambiente == old(ambiente) && url == old(url) && moduloAtual == old(moduloAtual)
    {
      var i := 0;
      while i < |metodos|
        invariant 0 <= i <= |metodos|
        invariant rotas == AdicionarTodos(old(rotas), Consultar(config, Some("aplicativo"), Some("home")), rota, cfg, metodos[..i], sobrepor)
        invariant config == old(config) && aplicativo == old(aplicativo) && ambiente == old(ambiente) && url == old(url) && moduloAtual == old(moduloAtual)
      {
        assert metodos[..i + 1][..i] == metodos[..i];
        AdicionarRotaEm(rota, cfg, metodos[i], sobrepor);
        i := i + 1;
      }
      assert metodos[..i] == metodos;
    }

    /** excluirRota: the pattern is unset in each listed method's table. */
    method ExcluirRota(rota: string, metodos: seq<string>)
      modifies this
      ensures rotas == ExcluirTodos(old(rotas), rota, metodos)
      ensures config == old(config) && aplicativo == old(aplicativo) && ambiente == old(ambiente) && url == old(url) && moduloAtual == old(moduloAtual)
    {
      var i := 0;
      while i < |metodos|
        invariant 0 <= i <= |metodos|
        invariant rotas == ExcluirTodos(old(rotas), rota, metodos[..i])
        invariant config == old(config) && aplicativo == old(aplicativo) && ambiente == old(ambiente) && url == old(url) && moduloAtual == old(moduloAtual)
      {
        assert metodos[..i + 1][..i] == metodos[..i];
        rotas := ExcluirEm(rotas, rota, metodos[i]);
        i := i + 1;
      }
      assert metodos[..i] == metodos;
    }

    /**
     * executar, up to the controller it resolves: a router over the route
     * table resolves the URL (the matching of patterns is the set casam).
     */
    method Executar(metodoServidor: string, casam: set<Key>) returns (r: Outcome<Controle.ArgsControle>)
      ensures r == Roteador.Resolver(FiltroPadraoArray(Arr(rotas)), url, metodoServidor, casam)
    {
      var roteador := new Roteador.Roteador(rotas);
      r := roteador.ObterRota(url, metodoServidor, casam);
    }
  }
}
