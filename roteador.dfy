// DLX\Classes\Roteador (dlx/classes/roteador.classe.php): the route table and
// the resolution of a URL into the Controle that serves it. The table maps a
// lower-case HTTP method to its routes, each a pattern mapped to a string or to
// an array configuration. The regular-expression engine is not modelled: the
// set of patterns that match the requested URL is a parameter.

module Roteador {
  import opened Wrappers
  import opened Text
  import opened Values
  import opened Assoc
  import opened Filtros
  import Controle

  // ------------------------------------------------------------ obterParams

  /** The configuration keys ~^(aplicativo|modulo|controle|acao|params)$~ names. */
  const RESERVADAS: set<string> := {"aplicativo", "modulo", "controle", "acao", "params"}

  /** A reserved key; PCRE's `$` also matches before a final newline, so "acao\n" is reserved too. */
  predicate Reservada(k: Key)
  {
    var t := KeyText(k);
    t in RESERVADAS || (|t| >= 1 && t[|t| - 1] == '\n' && t[..|t| - 1] in RESERVADAS)
  }

  /**
   * The entries of an array route under keys that are not reserved, in order.
   * PHP array keys are unique, so `$rota[$p]` is the entry's own value.
   */
  function Outras(rota: seq<(Key, Value)>): (r: seq<(Key, Value)>)
    ensures |r| <= |rota|
    ensures forall i :: 0 <= i < |r| ==> r[i] in rota && !Reservada(r[i].0)
    ensures forall i :: 0 <= i < |rota| && !Reservada(rota[i].0) ==> rota[i] in r
    decreases |rota|
  {
    if rota == [] then []
    else
      var n := |rota| - 1;
      var antes := Outras(rota[..n]);
      assert forall i :: 0 <= i < n ==> rota[..n][i] == rota[i];
      if Reservada(rota[n].0) then antes else antes + [rota[n]]
  }

  /**
   * The parameter string `$sp`. PHP 7 reads `!$ev ? $rota : array_key_exists(...) ? ... : ''`
   * as `(!$ev ? $rota : array_key_exists(...)) ? $rota['params'] : ''`: an array
   * route gives its 'params' entry or '', and a non-empty string route gives
   * `$rota['params']`, its first character (the illegal offset reads as 0).
   */
  function ParamsTexto(rota: Value): (r: Value)
    ensures rota.Arr? ==> r == (match Get(rota.entries, StrKey("params")) case Some(p) => p case None => Str(""))
    ensures rota.Str? ==> r.Str? && |r.s| <= 1
  {
    match rota
    case Arr(e) => (match Get(e, StrKey("params")) case Some(p) => p case None => Str(""))
    case Str(s) => if Empty(rota) then Str("") else Str(s[..1])
    case _ => if Empty(rota) then Str("") else Null
  }

  /** ~/\:[a-z_]+~ somewhere in the text. */
  predicate TemMarcador(t: string)
  {
    exists i :: 0 <= i && i + 2 < |t| && t[i] == '/' && t[i + 1] == ':' && (IsLowerAscii(t[i + 2]) || t[i + 2] == '_')
  }

  /** What preg_match and trim read of the parameter string: a non-string reads as "". */
  function TextoDe(sp: Value): string
  {
    if sp.Str? then sp.s else ""
  }

  /** The binding of one route segment: a ":name" segment i binds URL segment i when there is one. */
  function Vinculo(seg: string, c: nat, partes: seq<string>): seq<(Key, Value)>
  {
    if StartsWith(seg, ":") && c < |partes| then [(AsKey(Str(seg[1..])), Str(partes[c]))] else []
  }

  /** The bindings of the route's segments, in segment order. */
  function Vinculos(segs: seq<string>, partes: seq<string>): (r: seq<(Key, Value)>)
    ensures |r| <= |segs|
    decreases |segs|
  {
    if segs == [] then []
    else
      var n := |segs| - 1;
      Vinculos(segs[..n], partes) + Vinculo(segs[n], n, partes)
  }

  /** Segment c of the route is ":name" and binds name to URL segment c. */
  predicate Liga(segs: seq<string>, partes: seq<string>, c: int, x: (Key, Value))
  {
    0 <= c < |segs| && c < |partes| && StartsWith(segs[c], ":") && x == (AsKey(Str(segs[c][1..])), Str(partes[c]))
  }

  /** A ":name" segment at position c binds exactly when the URL has a segment c, and nothing else binds. */
  lemma {:induction false} VinculosPosicoes(segs: seq<string>, partes: seq<string>)
    ensures forall x :: x in Vinculos(segs, partes) ==> exists c :: Liga(segs, partes, c, x)
    ensures forall c :: 0 <= c < |segs| && c < |partes| && StartsWith(segs[c], ":") ==>
      (AsKey(Str(segs[c][1..])), Str(partes[c])) in Vinculos(segs, partes)
    decreases |segs|
  {
    if segs != [] {
      var n := |segs| - 1;
      var ini := segs[..n];
      VinculosPosicoes(ini, partes);
      assert forall c :: 0 <= c < n ==> ini[c] == segs[c];
      var antes := Vinculos(ini, partes);
      var r := Vinculos(segs, partes);
      assert r == antes + Vinculo(segs[n], n, partes);
      forall x | x in r ensures exists c :: Liga(segs, partes, c, x) {
        if x in antes {
          var c :| Liga(ini, partes, c, x);
          assert Liga(segs, partes, c, x);
        } else {
          assert Liga(segs, partes, n, x);
        }
      }
      forall c | 0 <= c < |segs| && c < |partes| && StartsWith(segs[c], ":")
        ensures (AsKey(Str(segs[c][1..])), Str(partes[c])) in r
      {
        if c < n {
          assert StartsWith(ini[c], ":");
        } else {
          assert r[|r| - 1] == (AsKey(Str(segs[c][1..])), Str(partes[c]));
        }
      }
    } else {
      assert Vinculos(segs, partes) == [];
    }
  }

  lemma PutAllUltimo(a: seq<(Key, Value)>, ps: seq<(Key, Value)>, x: (Key, Value))
    ensures PutAll(a, ps + [x]) == Put(PutAll(a, ps), x.0, x.1)
  {
    assert (ps + [x])[..|ps|] == ps;
  }

  /** The route's segments: the parameter string without its outer slashes, split at '/'. */
  function Segmentos(sp: Value): seq<string>
  {
    Split(Trim(TextoDe(sp), {'/'}), '/')
  }

  /** What obterParams returns. */
  function Params(url: string, rota: Value): seq<(Key, Value)>
  {
    var sp := ParamsTexto(rota);
    var op := if rota.Arr? then Outras(rota.entries) else [];
    if !TemMarcador(TextoDe(sp)) && op == [] then []
    else PutAll(PutAll([], op), Vinculos(Segmentos(sp), Split(url, '/')))
  }

  /** The first loop of obterParams: `$vp[$p] = $rota[$p]` for each extra key, in order. */
  method CopiarOutras(op: seq<(Key, Value)>) returns (vp: seq<(Key, Value)>)
    ensures vp == PutAll([], op)
  {
    vp := [];
    var i := 0;
    while i < |op|
      invariant 0 <= i <= |op|
      invariant vp == PutAll([], op[..i])
    {
      PutAllSnoc([], op, i);
      vp := Put(vp, op[i].0, op[i].1);
      i := i + 1;
    }
    assert op[..i] == op;
  }

  /** The second loop of obterParams: each ":name" segment bound to the URL segment at its position. */
  method VincularSegmentos(vp0: seq<(Key, Value)>, segs: seq<string>, partes: seq<string>) returns (vp: seq<(Key, Value)>)
    ensures vp == PutAll(vp0, Vinculos(segs, partes))
  {
    vp := vp0;
    var c := 0;
    while c < |segs|
      invariant 0 <= c <= |segs|
      invariant vp == PutAll(vp0, Vinculos(segs[..c], partes))
    {
      assert segs[..c + 1][..c] == segs[..c];
      var b := Vinculos(segs[..c], partes);
      assert Vinculos(segs[..c + 1], partes) == b + Vinculo(segs[c], c, partes);
      if StartsWith(segs[c], ":") && c < |partes| {
        PutAllUltimo(vp0, b, (AsKey(Str(segs[c][1..])), Str(partes[c])));
        vp := Put(vp, AsKey(Str(segs[c][1..])), Str(partes[c]));
      } else {
        assert b + Vinculo(segs[c], c, partes) == b;
      }
      c := c + 1;
    }
    assert segs[..c] == segs;
  }

  /** obterParams: the extra keys of an array route, then the ":name" segments bound to the URL's segments. */
  method ObterParams(url: string, rota: Value) returns (vp: seq<(Key, Value)>)
    ensures vp == Params(url, rota)
    ensures !TemMarcador(TextoDe(ParamsTexto(rota))) && (!rota.Arr? || Outras(rota.entries) == []) ==> vp == []
  {
    var sp := ParamsTexto(rota);
    var op := if rota.Arr? then Outras(rota.entries) else [];
    if !TemMarcador(TextoDe(sp)) && op == [] {
      return [];
    }
    vp := CopiarOutras(op);
    vp := VincularSegmentos(vp, Segmentos(sp), Split(url, '/'));
  }

  /** A string route never has parameters: its parameter string is at most one character. */
  lemma RotaTextoSemParams(url: string, s: string)
    ensures Params(url, Str(s)) == []
  {
    assert |TextoDe(ParamsTexto(Str(s)))| <= 1;
  }

  lemma {:induction false} OutrasUltimo(rota: seq<(Key, Value)>, k: Key)
    requires UniqueKeys(rota) && !Reservada(k)
    ensures LastValue(Outras(rota), k) == Get(rota, k)
    decreases |rota|
  {
    if rota != [] {
      var n := |rota| - 1;
      var ini, ult := rota[..n], rota[n];
      assert rota == ini + [ult];
      assert UniqueKeys(ini) by {
        forall i, j | 0 <= i < j < n ensures ini[i].0 != ini[j].0 {
          assert ini[i] == rota[i] && ini[j] == rota[j];
        }
      }
      OutrasUltimo(ini, k);
      var o := Outras(ini);
      GetAppend(ini, [ult], k);
      assert [ult][1..] == [];
      if ult.0 == k {
        assert !HasKey(ini, k) by {
          forall i | 0 <= i < |ini| ensures ini[i].0 != k {
            assert ini[i] == rota[i];
          }
        }
        LastValueSnoc(o, ult, k);
      } else if !Reservada(ult.0) {
        LastValueSnoc(o, ult, k);
      }
    }
  }

  lemma LastValueSnoc(o: seq<(Key, Value)>, p: (Key, Value), k: Key)
    ensures LastValue(o + [p], k) == if p.0 == k then Some(p.1) else LastValue(o, k)
  {
    assert (o + [p])[..|o|] == o;
  }

  lemma ParamsCom(url: string, rota: Value)
    requires rota.Arr? && Outras(rota.entries) != []
    ensures Params(url, rota) == PutAll(PutAll([], Outras(rota.entries)), Vinculos(Segmentos(ParamsTexto(rota)), Split(url, '/')))
  {
  }

  /** After the first loop of obterParams every extra key holds its value from the route. */
  lemma OutrasCopiadasPrimeiro(rota: seq<(Key, Value)>, k: Key)
    requires UniqueKeys(rota) && !Reservada(k) && HasKey(rota, k)
    ensures Outras(rota) != []
    ensures Get(PutAll([], Outras(rota)), k) == Get(rota, k)
  {
    var i :| 0 <= i < |rota| && rota[i].0 == k;
    assert rota[i] in Outras(rota);
    OutrasUltimo(rota, k);
    GetPutAll([], Outras(rota), k);
  }

  /** The extra keys of an array route reach the parameters as they are, unless a ":name" segment rebinds them. */
  lemma OutrasCopiadas(url: string, rota: Value, k: Key)
    requires rota.Arr? && UniqueKeys(rota.entries) && !Reservada(k) && HasKey(rota.entries, k)
    requires LastValue(Vinculos(Segmentos(ParamsTexto(rota)), Split(url, '/')), k).None?
    ensures Get(Params(url, rota), k) == Get(rota.entries, k)
  {
    OutrasCopiadasPrimeiro(rota.entries, k);
    ParamsCom(url, rota);
    GetPutAll(PutAll([], Outras(rota.entries)), Vinculos(Segmentos(ParamsTexto(rota)), Split(url, '/')), k);
  }

  // ------------------------------------------------------------ obterRota

  /** array_merge: integer keys are renumbered from 0 and appended, a string key already present is overwritten in place. */
  function Mesclar(acc: seq<(Key, Value)>, xs: seq<(Key, Value)>): seq<(Key, Value)>
    decreases |xs|
  {
    if xs == [] then acc
    else
      var n := |xs| - 1;
      var m := Mesclar(acc, xs[..n]);
      if xs[n].0.IntKey? then m + [(IntKey(Inteiras(m)), xs[n].1)] else Put(m, xs[n].0, xs[n].1)
  }

  /** How many integer keys an array holds: the next index array_merge gives out. */
  function Inteiras(a: seq<(Key, Value)>): nat
    decreases |a|
  {
    if a == [] then 0 else (if a[0].0.IntKey? then 1 else 0) + Inteiras(a[1..])
  }

  function ArrayMerge(a: seq<(Key, Value)>, b: seq<(Key, Value)>): seq<(Key, Value)>
  {
    Mesclar(Mesclar([], a), b)
  }

  /** `(array)$v`: null gives [], an array itself, an object its properties, a scalar [0 => v]. */
  function ComoArray(v: Value): seq<(Key, Value)>
  {
    match v
    case Null => []
    case Arr(e) => e
    case Obj(f) => f
    case _ => [(IntKey(0), v)]
  }

  /** Under a string key, array_merge gives the value the right-hand array last holds, else the left-hand one's. */
  lemma {:induction false} MesclarTexto(acc: seq<(Key, Value)>, xs: seq<(Key, Value)>, s: string)
    ensures Get(Mesclar(acc, xs), StrKey(s)) ==
      match LastValue(xs, StrKey(s)) case Some(v) => Some(v) case None => Get(acc, StrKey(s))
    decreases |xs|
  {
    if xs != [] {
      var n := |xs| - 1;
      var x := xs[n];
      var k := StrKey(s);
      var m := Mesclar(acc, xs[..n]);
      MesclarTexto(acc, xs[..n], s);
      assert LastValue(xs, k) == if x.0 == k then Some(x.1) else LastValue(xs[..n], k);
      assert Get(Mesclar(acc, xs), k) == if x.0 == k then Some(x.1) else Get(m, k) by {
        if x.0.IntKey? {
          var u := [(IntKey(Inteiras(m)), x.1)];
          assert Mesclar(acc, xs) == m + u;
          GetAppend(m, u, k);
          assert Get(u, k) == None;
        } else {
          assert Mesclar(acc, xs) == Put(m, x.0, x.1);
          GetPut(m, x.0, x.1, k);
        }
      }
    }
  }

  /** Fill one key from the array configuration when the URL did not give it. */
  function Preencher(p: seq<(Key, Value)>, v: seq<(Key, Value)>, k: string): (r: seq<(Key, Value)>)
    ensures forall k' :: Get(r, k') == if k' == StrKey(k) && !HasKey(p, k') then Get(v, k') else Get(p, k')
  {
    if !HasKey(p, StrKey(k)) && HasKey(v, StrKey(k)) then
      var r := Put(p, StrKey(k), Get(v, StrKey(k)).value);
      forall k' ensures Get(r, k') == if k' == StrKey(k) && !HasKey(p, k') then Get(v, k') else Get(p, k') {
        GetPut(p, StrKey(k), Get(v, StrKey(k)).value, k');
      }
      r
    else p
  }

  /** The five configuration keys, in the order obterRota fills them in. */
  function Completar(p: seq<(Key, Value)>, v: seq<(Key, Value)>): seq<(Key, Value)>
  {
    var p1 := Preencher(p, v, "aplicativo");
    var p2 := Preencher(p1, v, "modulo");
    var p3 := Preencher(p2, v, "controle");
    var p4 := Preencher(p3, v, "acao");
    Preencher(p4, v, "params")
  }

  /** An array route's configuration fills only the reserved keys the URL did not give; every other key keeps its value. */
  lemma CompletarChaves(p: seq<(Key, Value)>, v: seq<(Key, Value)>, k: Key)
    ensures Get(Completar(p, v), k) ==
      if k.StrKey? && k.s in {"aplicativo", "modulo", "controle", "acao", "params"} && !HasKey(p, k) then Get(v, k) else Get(p, k)
  {
  }

  /** array_diff_key with aplicativo, modulo, controle and acao. */
  function SemAlvo(p: seq<(Key, Value)>): (r: seq<(Key, Value)>)
    ensures forall i :: 0 <= i < |r| ==> r[i] in p && !(r[i].0.StrKey? && r[i].0.s in {"aplicativo", "modulo", "controle", "acao"})
    decreases |p|
  {
    if p == [] then []
    else if p[0].0.StrKey? && p[0].0.s in {"aplicativo", "modulo", "controle", "acao"} then SemAlvo(p[1..])
    else [p[0]] + SemAlvo(p[1..])
  }

  function Ou(o: Option<Value>, d: Value): Value
  {
    match o case Some(v) => v case None => d
  }

  /** The Controle a matching route makes: its target from the parameters, the rest passed on as params. */
  function Montar(pUrl: seq<(Key, Value)>, v: Value): (r: Controle.ArgsControle)
    ensures var p := if v.Arr? then Completar(pUrl, v.entries) else pUrl;
      r.aplicativo == Ou(Get(p, StrKey("aplicativo")), Null) && r.modulo == Ou(Get(p, StrKey("modulo")), Null) &&
      r.controle == Ou(Get(p, StrKey("controle")), Null) && r.acao == Ou(Get(p, StrKey("acao")), Null)
    ensures var p := if v.Arr? then Completar(pUrl, v.entries) else pUrl;
      !HasKey(p, StrKey("params")) ==> r.params == SemAlvo(p)
  {
    var p := if v.Arr? then Completar(pUrl, v.entries) else pUrl;
    var params := SemAlvo(p);
    Controle.ArgsControle(
      Ou(Get(p, StrKey("aplicativo")), Null), Ou(Get(p, StrKey("modulo")), Null),
      Ou(Get(p, StrKey("controle")), Null), Ou(Get(p, StrKey("acao")), Null),
      if HasKey(p, StrKey("params")) then ArrayMerge(params, ComoArray(Get(p, StrKey("params")).value)) else params)
  }

  /** A string key of the 'params' entry overrides a parameter of the same name. */
  lemma MontarParams(pUrl: seq<(Key, Value)>, v: Value, s: string)
    requires var p := if v.Arr? then Completar(pUrl, v.entries) else pUrl;
      HasKey(p, StrKey("params")) && HasKey(ComoArray(Get(p, StrKey("params")).value), StrKey(s))
    ensures var p := if v.Arr? then Completar(pUrl, v.entries) else pUrl;
      Get(Montar(pUrl, v).params, StrKey(s)) == LastValue(ComoArray(Get(p, StrKey("params")).value), StrKey(s))
  {
    var p := if v.Arr? then Completar(pUrl, v.entries) else pUrl;
    var extra := ComoArray(Get(p, StrKey("params")).value);
    var i :| 0 <= i < |extra| && extra[i].0 == StrKey(s);
    MesclarTexto(Mesclar([], SemAlvo(p)), extra, s);
  }

  /** The target obterRota falls back to when no route matches. */
  const ERRO_404: Controle.ArgsControle :=
    Controle.ArgsControle(Null, Str("Comum"), Str("ErroHTTP"), Str("mostrarErro"), [(StrKey("status_http"), Int(404))])

  /** `$this->rotas[$metodo]` when it is an array of routes; anything else has no routes to try. */
  function RotasDoMetodo(rotas: seq<(Key, Value)>, metodo: string): (r: seq<(Key, Value)>)
    ensures !HasKey(rotas, AsKey(Str(metodo))) ==> r == []
  {
    var v := Get(rotas, AsKey(Str(metodo)));
    if v.Some? && v.value.Arr? then v.value.entries else []
  }

  /** The position of the first route whose pattern matches. */
  function Primeira(lista: seq<(Key, Value)>, casam: set<Key>): (r: Option<nat>)
    ensures r.None? <==> forall j :: 0 <= j < |lista| ==> lista[j].0 !in casam
    ensures r.Some? ==>
      r.value < |lista| && lista[r.value].0 in casam &&
      forall j :: 0 <= j < r.value ==> lista[j].0 !in casam
    decreases |lista|
  {
    if lista == [] then None
    else if lista[0].0 in casam then Some(0)
    else
      match Primeira(lista[1..], casam)
      case Some(i) => assert forall j :: 1 <= j < |lista| ==> lista[j] == lista[1..][j - 1]; Some(i + 1)
      case None => assert forall j :: 1 <= j < |lista| ==> lista[j] == lista[1..][j - 1]; None
  }

  /** What obterRota returns for a URL, the request method and the set of patterns that match the URL. */
  function Resolver(rotas: Option<seq<(Key, Value)>>, url: string, metodo: string, casam: set<Key>): (r: Outcome<Controle.ArgsControle>)
    ensures r.Throw? <==> rotas.None? || rotas.value == []
    ensures r.Throw? ==> r.code == NOT_FOUND
    ensures r.Ok? && Primeira(RotasDoMetodo(rotas.value, Lower(metodo)), casam).None? ==> r.value == ERRO_404
    ensures r.Ok? && Primeira(RotasDoMetodo(rotas.value, Lower(metodo)), casam).Some? ==>
      var lista := RotasDoMetodo(rotas.value, Lower(metodo));
      var i := Primeira(lista, casam).value;
      r.value == Montar(Params(url, lista[i].1), lista[i].1)
  {
    if rotas.None? || rotas.value == [] then Throw(NOT_FOUND, "Nenhuma rota foi configurada!")
    else
      var lista := RotasDoMetodo(rotas.value, Lower(metodo));
      match Primeira(lista, casam)
      case Some(i) => Ok(Montar(Params(url, lista[i].1), lista[i].1))
      case None => Ok(ERRO_404)
  }

  class Roteador {
    var rotas: Option<seq<(Key, Value)>>

    /** The routes, filtered as setRotas does. */
    constructor (rotas0: seq<(Key, Value)>)
      ensures rotas == FiltroPadraoArray(Arr(rotas0)) && rotas.Some?
    {
      rotas := FiltroPadraoArray(Arr(rotas0));
    }

    /** setRotas: an array with every leaf turned into text; anything else is null. */
    method SetRotas(v: Value)
      modifies this
      ensures rotas == FiltroPadraoArray(v)
      ensures rotas.Some? <==> v.Arr?
    {
      rotas := FiltroPadraoArray(v);
    }

    /** validarRotas: the table is a non-empty array. */
    predicate ValidarRotas()
      reads this
    {
      rotas.Some? && rotas.value != []
    }

    /**
     * obterRota: the routes of the request method are tried in table order and
     * the first whose pattern matches the URL builds the Controle; with no
     * match the ErroHTTP controller answers 404. An empty table throws 1404.
     */
    method ObterRota(url: string, metodoServidor: string, casam: set<Key>) returns (r: Outcome<Controle.ArgsControle>)
      ensures r == Resolver(rotas, url, metodoServidor, casam)
    {
      if !ValidarRotas() {
        return Throw(NOT_FOUND, "Nenhuma rota foi configurada!");
      }
      var metodo := Lower(metodoServidor);
      var lista := RotasDoMetodo(rotas.value, metodo);
      var i := 0;
      while i < |lista|
        invariant 0 <= i <= |lista|
        invariant forall j :: 0 <= j < i ==> lista[j].0 !in casam
      {
        if lista[i].0 in casam {
          assert Primeira(lista, casam) == Some(i);
          var p := ObterParams(url, lista[i].1);
          return Ok(Montar(p, lista[i].1));
        }
        i := i + 1;
      }
      assert Primeira(lista, casam).None?;
      r := Ok(ERRO_404);
    }
  }
}
