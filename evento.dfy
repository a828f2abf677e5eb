// The Evento trait (dlx/ajudantes/evento.ajudante.php): handlers registered to
// run before ('antes') or after ('depois') a non-public method of the object,
// or around every such method ('*'), and the order in which they run.
// Handlers are opaque callables identified by a number; running one is
// recorded as a call instead of being performed.

module Evento {
  import opened Wrappers
  import opened Text

  datatype Funcao = Funcao(id: nat)

  /** One step of a call through __call: a handler, or the method itself. */
  datatype Chamada = Handler(f: Funcao) | Metodo(nome: string)

  /** eventos[momento][metodo]: the handlers of a moment and method, in registration order. */
  type Tabela = map<string, map<string, seq<Funcao>>>

  /** The handlers listed under eventos[momento][metodo] (none when either key is missing). */
  function Handlers(e: Tabela, momento: string, metodo: string): seq<Funcao>
  {
    if momento in e && metodo in e[momento] then e[momento][metodo] else []
  }

  /** eventos[momento][metodo][] = funcao. */
  function Registrar(e: Tabela, momento: string, metodo: string, f: Funcao): (r: Tabela)
    ensures Handlers(r, momento, metodo) == Handlers(e, momento, metodo) + [f]
    ensures forall mo, m :: (mo != momento || m != metodo) ==> Handlers(r, mo, m) == Handlers(e, mo, m)
  {
    var t := if momento in e then e[momento] else map[];
    e[momento := t[metodo := Handlers(e, momento, metodo) + [f]]]
  }

  /** The handlers executarEvento runs: those of '*' first, then those of the method, each in registration order. */
  function Disparados(e: Tabela, momento: string, metodo: string): seq<Funcao>
  {
    Handlers(e, momento, "*") + Handlers(e, momento, metodo)
  }

  /** Repeated registration: f n times. */
  function Repetir(f: Funcao, n: nat): (r: seq<Funcao>)
    ensures |r| == n && forall i :: 0 <= i < n ==> r[i] == f
  {
    if n == 0 then [] else Repetir(f, n - 1) + [f]
  }

  class Evento {
    /** The object's methods, by lower-case name: whether each is public. */
    const metodos: map<string, bool>
    var eventos: Tabela

    /** Empty 'antes' and 'depois' tables. */
    constructor (metodos0: map<string, bool>)
      ensures metodos == metodos0
      ensures eventos == map["antes" := map[], "depois" := map[]]
    {
      metodos := metodos0;
      eventos := map["antes" := map[], "depois" := map[]];
    }

    /** method_exists (case-insensitive). */
    predicate Existe(m: string)
    {
      Lower(m) in metodos
    }

    predicate Publico(m: string)
    {
      Lower(m) in metodos && metodos[Lower(m)]
    }

    /** A method name adicionarEvento registers: non-empty, and an existing method or '*'. */
    predicate Aceito(m: string)
    {
      m != "" && m != "0" && (Existe(m) || m == "*")
    }

    /** A method name adicionarEvento refuses with 1403: a non-empty public method. */
    predicate Recusado(m: string)
    {
      m != "" && m != "0" && Publico(m)
    }

    /** The registrations of a list of method names that raise nothing, one after the other. */
    function RegistrarTodos(e: Tabela, momento: string, ms: seq<string>, f: Funcao): Tabela
      decreases |ms|
    {
      if ms == [] then e
      else
        var antes := RegistrarTodos(e, momento, ms[..|ms| - 1], f);
        var m := ms[|ms| - 1];
        if Aceito(m) && !Recusado(m) then Registrar(antes, momento, m, f) else antes
    }

    /** The first refused name, if any. */
    function PrimeiroRecusado(ms: seq<string>): (r: Option<nat>)
      ensures r.None? <==> forall i :: 0 <= i < |ms| ==> !Recusado(ms[i])
      ensures r.Some? ==> r.value < |ms| && Recusado(ms[r.value]) && forall i :: 0 <= i < r.value ==> !Recusado(ms[i])
      decreases |ms|
    {
      if ms == [] then None
      else if Recusado(ms[0]) then Some(0)
      else
        var r := PrimeiroRecusado(ms[1..]);
        assert forall i :: 1 <= i < |ms| ==> ms[i] == ms[1..][i - 1];
        if r.Some? then Some(r.value + 1) else None
    }

    /**
     * adicionarEvento(momento, metodo, funcao) for a list of names (a single
     * name is a one-element list): each accepted name gets the handler
     * appended; the first public method throws 1403, after the names before it
     * were registered.
     */
    method AdicionarEvento(momento: string, ms: seq<string>, f: Funcao) returns (r: Outcome<()>)
      modifies this
      ensures var p := PrimeiroRecusado(ms);
        (p.None? ==> r.Ok? && eventos == RegistrarTodos(old(eventos), momento, ms, f)) &&
        (p.Some? ==> r.Throw? && r.code == FORBIDDEN && eventos == RegistrarTodos(old(eventos), momento, ms[..p.value], f))
    {
      var i := 0;
      while i < |ms|
        invariant 0 <= i <= |ms|
        invariant forall j :: 0 <= j < i ==> !Recusado(ms[j])
        invariant eventos == RegistrarTodos(old(eventos), momento, ms[..i], f)
      {
        var m := ms[i];
        assert ms[..i + 1][..i] == ms[..i];
        if Recusado(m) {
          return Throw(FORBIDDEN, "Não é possível atribuir eventos a métodos públicos: <b>" + m + "</b>.");
        }
        if Aceito(m) {
          eventos := Registrar(eventos, momento, m, f);
        }
        i := i + 1;
      }
      assert ms[..i] == ms;
      r := Ok(());
    }

    /** executarEvento(momento, metodo): the handlers it calls, in the order it calls them. */
    method ExecutarEvento(momento: string, metodo: string) returns (chamadas: seq<Chamada>)
      ensures |chamadas| == |Disparados(eventos, momento, metodo)|
      ensures forall i :: 0 <= i < |chamadas| ==> chamadas[i] == Handler(Disparados(eventos, momento, metodo)[i])
    {
      var funcoes := Handlers(eventos, momento, "*") + Handlers(eventos, momento, metodo);
      chamadas := [];
      var i := 0;
      while i < |funcoes|
        invariant 0 <= i <= |funcoes|
        invariant |chamadas| == i
        invariant forall j :: 0 <= j < i ==> chamadas[j] == Handler(funcoes[j])
      {
        chamadas := chamadas + [Handler(funcoes[i])];
        i := i + 1;
      }
    }

    /**
     * __call(nome, args): the 'antes' handlers, the method itself, then the
     * 'depois' handlers; the method's result (an input) is returned.
     */
    method Chamar<R>(nome: string, resultado: R) returns (chamadas: seq<Chamada>, r: R)
      ensures r == resultado
      ensures chamadas == ComoChamadas(Disparados(eventos, "antes", nome)) + [Metodo(nome)] +
        ComoChamadas(Disparados(eventos, "depois", nome))
    {
      var antes := ExecutarEvento("antes", nome);
      var depois := ExecutarEvento("depois", nome);
      ComoChamadasSpec(Disparados(eventos, "antes", nome), antes);
      ComoChamadasSpec(Disparados(eventos, "depois", nome), depois);
      chamadas := antes + [Metodo(nome)] + depois;
      r := resultado;
    }
  }

  function ComoChamadas(fs: seq<Funcao>): (r: seq<Chamada>)
    ensures |r| == |fs|
    decreases |fs|
  {
    if fs == [] then [] else [Handler(fs[0])] + ComoChamadas(fs[1..])
  }

  lemma {:induction false} ComoChamadasSpec(fs: seq<Funcao>, cs: seq<Chamada>)
    requires |cs| == |fs| && forall i :: 0 <= i < |cs| ==> cs[i] == Handler(fs[i])
    ensures cs == ComoChamadas(fs)
    decreases |fs|
  {
    if fs != [] {
      ComoChamadasSpec(fs[1..], cs[1..]);
    }
  }

  /** How many accepted, unrefused names of the list equal m. */
  function Vezes(ev: Evento, ms: seq<string>, m: string): nat
    decreases |ms|
  {
    if ms == [] then 0
    else Vezes(ev, ms[..|ms| - 1], m) + (if ms[|ms| - 1] == m && ev.Aceito(m) && !ev.Recusado(m) then 1 else 0)
  }

  /**
   * Registering a list appends the handler once per accepted occurrence of a
   * name, after the handlers it had, and touches no other moment.
   */
  lemma {:induction false} RegistrarTodosHandlers(ev: Evento, e: Tabela, momento: string, ms: seq<string>, f: Funcao, mo: string, m: string)
    ensures Handlers(ev.RegistrarTodos(e, momento, ms, f), mo, m) ==
      Handlers(e, mo, m) + (if mo == momento then Repetir(f, Vezes(ev, ms, m)) else [])
    decreases |ms|
  {
    if ms != [] {
      RegistrarTodosHandlers(ev, e, momento, ms[..|ms| - 1], f, mo, m);
    }
  }

  /**
   * After f is registered for a method other than '*', executarEvento on that
   * method runs what it ran before and then f; on '*' the handlers of '*' run
   * twice (once as the wildcard, once as the method).
   */
  lemma RegistradoDisparaPorUltimo(e: Tabela, momento: string, m: string, f: Funcao)
    ensures m != "*" ==> Disparados(Registrar(e, momento, m, f), momento, m) == Disparados(e, momento, m) + [f]
    ensures Disparados(e, momento, "*") == Handlers(e, momento, "*") + Handlers(e, momento, "*")
  {
  }

  /** Handlers of other methods never run. */
  lemma DisparadosSoDoMetodo(e: Tabela, momento: string, metodo: string, outro: string, f: Funcao)
    requires outro != metodo && outro != "*"
    ensures Disparados(Registrar(e, momento, outro, f), momento, metodo) == Disparados(e, momento, metodo)
  {
  }
}
