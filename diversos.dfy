// DLX\Ajudantes\Diversos (dlx/ajudantes/diversos.ajudante.php): the URL
// decoding of form data, applied through arrays and objects, and the loading
// of a POST request into an object's properties, through its setters when
// it has them.

module Diversos {
  import opened Wrappers
  import opened Text
  import opened Assoc
  import opened Values
  import Json
  import Strings

  // ---------------------------------------------------------------- urldecode

  /**
   * PHP's urldecode: '+' is a blank and '%' followed by two hex digits is the
   * byte they spell; anything else, a lone '%' included, is kept.
   */
  function UrlDecode(s: string): (r: string)
    ensures |r| <= |s|
    decreases |s|
  {
    if s == [] then []
    else if s[0] == '+' then [' '] + UrlDecode(s[1..])
    else if s[0] == '%' && |s| >= 3 && Json.ValorHex(s[1]).Some? && Json.ValorHex(s[2]).Some? then
      [(16 * Json.ValorHex(s[1]).value + Json.ValorHex(s[2]).value) as char] + UrlDecode(s[3..])
    else [s[0]] + UrlDecode(s[1..])
  }

  /** A text without '+' or '%' is left as it is. */
  lemma {:induction false} UrlDecodeSemEscapes(s: string)
    requires '+' !in s && '%' !in s
    ensures UrlDecode(s) == s
    decreases |s|
  {
    if s != [] {
      assert s == [s[0]] + s[1..];
      UrlDecodeSemEscapes(s[1..]);
    }
  }

  /** An upper-case hex digit, as urlencode writes it. */
  function HexMaiusculo(d: int): (c: char)
    requires 0 <= d < 16
    ensures Json.ValorHex(c) == Some(d)
  {
    if d < 10 then ('0' as int + d) as char else ('A' as int + d - 10) as char
  }

  predicate Preservado(c: char)
  {
    'a' <= c <= 'z' || 'A' <= c <= 'Z' || '0' <= c <= '9' || c == '-' || c == '_' || c == '.'
  }

  /** One byte as PHP's urlencode writes it. */
  function Codificar(c: char): (r: string)
    requires c as int < 256
  {
    if Preservado(c) then [c]
    else if c == ' ' then "+"
    else ['%', HexMaiusculo(c as int / 16), HexMaiusculo(c as int % 16)]
  }

  /** PHP's urlencode, over a text of bytes: the encoding urldecode undoes. */
  function UrlEncode(s: string): (r: string)
    requires forall i :: 0 <= i < |s| ==> s[i] as int < 256
    decreases |s|
  {
    if s == [] then [] else Codificar(s[0]) + UrlEncode(s[1..])
  }

  lemma DecodeCodificar(c: char, resto: string)
    requires c as int < 256
    ensures UrlDecode(Codificar(c) + resto) == [c] + UrlDecode(resto)
  {
    var t := Codificar(c) + resto;
    if Preservado(c) {
      assert t[1..] == resto;
    } else if c == ' ' {
      assert t[1..] == resto;
    } else {
      assert t[3..] == resto;
      assert (16 * (c as int / 16) + c as int % 16) as char == c;
    }
  }

  /** urldecode gives back what urlencode encoded. */
  lemma {:induction false} UrlDecodeEncode(s: string)
    requires forall i :: 0 <= i < |s| ==> s[i] as int < 256
    ensures UrlDecode(UrlEncode(s)) == s
    decreases |s|
  {
    if s != [] {
      UrlDecodeEncode(s[1..]);
      DecodeCodificar(s[0], UrlEncode(s[1..]));
      assert s == [s[0]] + s[1..];
    }
  }

  // ------------------------------------------------------- urlDecodeRecursivo

  /** The entries of an array, or the properties of an object. */
  function Entradas(v: Value): seq<(Key, Value)>
    requires v.Arr? || v.Obj?
  {
    if v.Arr? then v.entries else v.fields
  }

  /**
   * urlDecodeRecursivo: an empty() value is returned as it is; a text is
   * decoded; any other scalar is kept; an array or an object keeps its keys,
   * in order, each value decoded in turn.
   */
  function UrlDecodeRecursivo(v: Value): (r: Value)
    ensures Empty(v) ==> r == v
    ensures !Empty(v) && v.Str? ==> r == Str(UrlDecode(v.s))
    ensures v.Bool? || v.Int? ==> r == v
    ensures v.Arr? <==> r.Arr?
    ensures v.Obj? <==> r.Obj?
    ensures (v.Arr? || v.Obj?) ==> Keys(Entradas(r)) == Keys(Entradas(v))
    decreases v, 1, 0
  {
    if Empty(v) then v
    else
      match v
      case Null => v
      case Bool(_) => v
      case Int(_) => v
      case Str(s) => Str(UrlDecode(s))
      case Arr(e) => Arr(DecodificarDesde(v, 0))
      case Obj(f) => Obj(DecodificarDesde(v, 0))
  }

  /** The entries from i on, each value decoded, each key kept. */
  function DecodificarDesde(v: Value, i: nat): (r: seq<(Key, Value)>)
    requires (v.Arr? || v.Obj?) && i <= |Entradas(v)|
    ensures |r| == |Entradas(v)| - i
    ensures forall j :: 0 <= j < |r| ==> r[j] == (Entradas(v)[i + j].0, UrlDecodeRecursivo(Entradas(v)[i + j].1))
    decreases v, 0, |Entradas(v)| - i
  {
    if i == |Entradas(v)| then []
    else
      var x := Entradas(v)[i];
      [(x.0, UrlDecodeRecursivo(x.1))] + DecodificarDesde(v, i + 1)
  }

  /** No text inside the value holds '+' or '%'. */
  predicate SemEscapes(v: Value)
    decreases v
  {
    match v
    case Str(s) => '+' !in s && '%' !in s
    case Arr(e) => forall j :: 0 <= j < |e| ==> SemEscapes(e[j].1)
    case Obj(f) => forall j :: 0 <= j < |f| ==> SemEscapes(f[j].1)
    case _ => true
  }

  /** A value with nothing to decode comes back unchanged, however deeply it nests. */
  lemma {:induction false} UrlDecodeRecursivoSemEscapes(v: Value)
    requires SemEscapes(v)
    ensures UrlDecodeRecursivo(v) == v
    decreases v
  {
    if !Empty(v) {
      match v
      case Str(s) => UrlDecodeSemEscapes(s);
      case Arr(e) =>
        var r := DecodificarDesde(v, 0);
        forall j | 0 <= j < |e|
          ensures r[j] == e[j]
        {
          UrlDecodeRecursivoSemEscapes(e[j].1);
        }
        assert r == e;
      case Obj(f) =>
        var r := DecodificarDesde(v, 0);
        forall j | 0 <= j < |f|
          ensures r[j] == f[j]
        {
          UrlDecodeRecursivoSemEscapes(f[j].1);
        }
        assert r == f;
      case _ =>
    }
  }

  // ------------------------------------------------------------- post2Objeto

  /** The setter post2Objeto looks for: 'set' followed by the PSR form of the name. */
  function Setter(nome: string): string
  {
    "set" + Strings.Conveter2PSR(nome)
  }

  /**
   * The object post2Objeto fills: its properties with their values, the
   * names of its methods (lower-cased: method_exists ignores case), and the
   * setter calls made on it, in order, each with the value passed.
   */
  class Objeto {
    var props: seq<(string, Value)>
    const metodos: set<string>
    var chamadas: seq<(string, Value)>

    constructor(props: seq<(string, Value)>, metodos: set<string>)
      ensures this.props == props && this.metodos == metodos && chamadas == []
    {
      this.props := props;
      this.metodos := metodos;
      chamadas := [];
    }
  }

  /** What post2Objeto has done to an object: its properties and the setter calls made. */
  datatype Carga = Carga(props: seq<(string, Value)>, chamadas: seq<(string, Value)>)

  /**
   * One POST field: ignored unless the object has a property of that name;
   * otherwise its decoded value goes to the setter when there is one, or
   * straight into the property.
   */
  function Passo(c: Carga, metodos: set<string>, campo: (string, Value)): Carga
  {
    if !HasKey(c.props, campo.0) then c
    else
      var v := UrlDecodeRecursivo(campo.1);
      if Lower(Setter(campo.0)) in metodos then Carga(c.props, c.chamadas + [(Setter(campo.0), v)])
      else Carga(Put(c.props, campo.0, v), c.chamadas)
  }

  /** The POST fields, in order. */
  function Carregar(c: Carga, metodos: set<string>, post: seq<(string, Value)>): Carga
    decreases |post|
  {
    if post == [] then c else Passo(Carregar(c, metodos, post[..|post| - 1]), metodos, post[|post| - 1])
  }

  /**
   * post2Objeto: only a POST request is loaded; each field naming a property
   * of the object is decoded and handed to the setter, or assigned.
   */
  method Post2Objeto(metodoRequisicao: string, post: seq<(string, Value)>, o: Objeto)
    modifies o
    ensures metodoRequisicao != "POST" ==> o.props == old(o.props) && o.chamadas == old(o.chamadas)
    ensures metodoRequisicao == "POST" ==>
            Carga(o.props, o.chamadas) == Carregar(Carga(old(o.props), old(o.chamadas)), o.metodos, post)
  {
    if metodoRequisicao == "POST" {
      var i := 0;
      while i < |post|
        invariant 0 <= i <= |post|
        invariant Carga(o.props, o.chamadas) == Carregar(Carga(old(o.props), old(o.chamadas)), o.metodos, post[..i])
      {
        assert post[..i + 1][..i] == post[..i];
        var nome := post[i].0;
        if HasKey(o.props, nome) {
          var metodoSet := Setter(nome);
          var valor := UrlDecodeRecursivo(post[i].1);
          if Lower(metodoSet) in o.metodos {
            o.chamadas := o.chamadas + [(metodoSet, valor)];
          } else {
            o.props := Put(o.props, nome, valor);
          }
        }
        i := i + 1;
      }
      assert post[..|post|] == post;
    }
  }

  /** The object never gains a property: every assignment is to one it already has. */
  lemma {:induction false} CarregarChaves(c: Carga, metodos: set<string>, post: seq<(string, Value)>)
    ensures Keys(Carregar(c, metodos, post).props) == Keys(c.props)
    decreases |post|
  {
    if post != [] {
      var d := Carregar(c, metodos, post[..|post| - 1]);
      CarregarChaves(c, metodos, post[..|post| - 1]);
      var x := post[|post| - 1];
      if HasKey(d.props, x.0) {
        KeysPut(d.props, x.0, UrlDecodeRecursivo(x.1));
      }
    }
  }

  /**
   * A property without a setter ends with the decoded value of the last POST
   * field of its name, or keeps its value when there is none.
   */
  lemma {:induction false} CarregarSemSetter(c: Carga, metodos: set<string>, post: seq<(string, Value)>, k: string)
    requires HasKey(c.props, k) && Lower(Setter(k)) !in metodos
    ensures Get(Carregar(c, metodos, post).props, k) ==
            match LastValue(post, k) case Some(v) => Some(UrlDecodeRecursivo(v)) case None => Get(c.props, k)
    decreases |post|
  {
    if post != [] {
      var init := post[..|post| - 1];
      var d := Carregar(c, metodos, init);
      CarregarSemSetter(c, metodos, init, k);
      CarregarChaves(c, metodos, init);
      var x := post[|post| - 1];
      if HasKey(d.props, x.0) && Lower(Setter(x.0)) !in metodos {
        GetPut(d.props, x.0, UrlDecodeRecursivo(x.1), k);
      }
      if x.0 == k {
        assert HasKey(d.props, k) by {
          MesmasChaves(c.props, d.props, k);
        }
      }
    }
  }

  lemma MesmasChaves(a: seq<(string, Value)>, b: seq<(string, Value)>, k: string)
    requires Keys(a) == Keys(b) && HasKey(a, k)
    ensures HasKey(b, k)
  {
    var i :| 0 <= i < |a| && a[i].0 == k;
    assert Keys(b)[i] == k;
  }

  /**
   * A property with a setter is left to the setter: the property itself is
   * not assigned, and the setter is called once per POST field of its name.
   */
  lemma {:induction false} CarregarComSetter(c: Carga, metodos: set<string>, post: seq<(string, Value)>, k: string)
    requires Lower(Setter(k)) in metodos
    ensures Get(Carregar(c, metodos, post).props, k) == Get(c.props, k)
    decreases |post|
  {
    if post != [] {
      var init := post[..|post| - 1];
      var d := Carregar(c, metodos, init);
      CarregarComSetter(c, metodos, init, k);
      var x := post[|post| - 1];
      if HasKey(d.props, x.0) && Lower(Setter(x.0)) !in metodos {
        GetPut(d.props, x.0, UrlDecodeRecursivo(x.1), k);
      }
    }
  }

  /** Fields that name no property change nothing. */
  lemma {:induction false} CarregarSemPropriedades(c: Carga, metodos: set<string>, post: seq<(string, Value)>)
    requires forall i :: 0 <= i < |post| ==> !HasKey(c.props, post[i].0)
    ensures Carregar(c, metodos, post) == c
    decreases |post|
  {
    if post != [] {
      CarregarSemPropriedades(c, metodos, post[..|post| - 1]);
    }
  }
}
