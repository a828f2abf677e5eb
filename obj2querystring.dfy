// obj2QueryString (web/js/funcoes/obj2querystring.js): the query string of a
// JavaScript object. The object is given as its (key, value) pairs in
// Object.keys order, values already converted to strings.

module Obj2QueryString {
  import opened Text

  /** The "k=v" segment of each pair, in order. */
  function Segmentos(obj: seq<(string, string)>): (r: seq<string>)
    ensures |r| == |obj|
    ensures forall i :: 0 <= i < |obj| ==> r[i] == obj[i].0 + "=" + obj[i].1
    decreases |obj|
  {
    if obj == [] then [] else [obj[0].0 + "=" + obj[0].1] + Segmentos(obj[1..])
  }

  /** obj2QueryString: the segments joined by '&', keys and values written verbatim. */
  function Obj2QueryString(obj: seq<(string, string)>): (r: string)
    ensures obj == [] ==> r == ""
    ensures |obj| == 1 ==> r == obj[0].0 + "=" + obj[0].1
  {
    Join(Segmentos(obj), "&")
  }

  /** How many times c occurs in s. */
  function Ocorrencias(s: string, c: char): (n: nat)
    ensures n <= |s|
    ensures n == 0 <==> c !in s
    decreases |s|
  {
    if s == [] then 0 else (if s[0] == c then 1 else 0) + Ocorrencias(s[1..], c)
  }

  lemma {:induction false} OcorrenciasConcat(a: string, b: string, c: char)
    ensures Ocorrencias(a + b, c) == Ocorrencias(a, c) + Ocorrencias(b, c)
    decreases |a|
  {
    if a == [] {
      assert a + b == b;
    } else {
      assert (a + b)[1..] == a[1..] + b;
      OcorrenciasConcat(a[1..], b, c);
    }
  }

  /** No key or value holds the separator. */
  predicate SemSeparador(obj: seq<(string, string)>)
  {
    forall i :: 0 <= i < |obj| ==> '&' !in obj[i].0 && '&' !in obj[i].1
  }

  lemma SegmentoSemSeparador(obj: seq<(string, string)>, i: int)
    requires SemSeparador(obj) && 0 <= i < |obj|
    ensures '&' !in Segmentos(obj)[i]
  {
    var k, v := obj[i].0, obj[i].1;
    assert Segmentos(obj)[i] == k + "=" + v;
    OcorrenciasConcat(k, "=", '&');
    OcorrenciasConcat(k + "=", v, '&');
  }

  /** Splitting the query string at '&' gives back one "k=v" segment per key, in order. */
  lemma QueryStringSegmentos(obj: seq<(string, string)>)
    requires |obj| >= 1 && SemSeparador(obj)
    ensures Split(Obj2QueryString(obj), '&') == Segmentos(obj)
  {
    var s := Segmentos(obj);
    forall i | 0 <= i < |s| ensures '&' !in s[i] {
      SegmentoSemSeparador(obj, i);
    }
    SplitJoin(s, '&');
  }

  lemma {:induction false} OcorrenciasJoin(parts: seq<string>, c: char)
    requires |parts| >= 1
    requires forall i :: 0 <= i < |parts| ==> c !in parts[i]
    ensures Ocorrencias(Join(parts, [c]), c) == |parts| - 1
    decreases |parts|
  {
    if |parts| > 1 {
      OcorrenciasJoin(parts[1..], c);
      OcorrenciasConcat(parts[0], [c], c);
      OcorrenciasConcat(parts[0] + [c], Join(parts[1..], [c]), c);
    }
  }

  /** A non-empty object gives exactly one '&' fewer than it has keys. */
  lemma QueryStringSeparadores(obj: seq<(string, string)>)
    requires |obj| >= 1 && SemSeparador(obj)
    ensures Ocorrencias(Obj2QueryString(obj), '&') == |obj| - 1
  {
    var s := Segmentos(obj);
    forall i | 0 <= i < |s| ensures '&' !in s[i] {
      SegmentoSemSeparador(obj, i);
    }
    OcorrenciasJoin(s, '&');
  }
}
