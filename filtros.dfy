// The variants of PHP's filter_var the framework's setters rely on:
// FILTER_SANITIZE_STRING (with and without FILTER_FLAG_EMPTY_STRING_NULL),
// FILTER_VALIDATE_INT with a range and a default, FILTER_VALIDATE_REGEXP and
// FILTER_VALIDATE_IP for IPv4 and IPv6 addresses.

module Filtros {
  import opened Wrappers
  import opened Text
  import opened Values
  import Vetores

  // ------------------------------------------------------- FILTER_SANITIZE_STRING

  predicate IsCSpace(c: char)
  {
    c in {' ', '\t', '\n', '\r', 11 as char, 12 as char}
  }

  /** The text after a tag opened at the start of s: everything up to and including the next '>'. */
  function AposTag(s: string): (r: string)
    ensures |r| < |s| || s == []
    decreases |s|
  {
    if s == [] then []
    else if s[0] == '>' then s[1..]
    else AposTag(s[1..])
  }

  /**
   * The tag stripping of FILTER_SANITIZE_STRING: a '<' followed by a blank is
   * kept as text; any other '<' opens a tag that is dropped up to its '>', or to
   * the end when it is never closed.
   */
  function SemTags(s: string): (r: string)
    decreases |s|
  {
    if s == [] then []
    else if s[0] == '<' && !(|s| >= 2 && IsCSpace(s[1])) then SemTags(AposTag(s[1..]))
    else [s[0]] + SemTags(s[1..])
  }

  /** Quotes become the entities &#34; and &#39;. */
  function CodificarAspas(s: string): (r: string)
    ensures '"' !in r && '\'' !in r
    decreases |s|
  {
    if s == [] then []
    else (if s[0] == '"' then "&#34;" else if s[0] == '\'' then "&#39;" else [s[0]]) + CodificarAspas(s[1..])
  }

  /** filter_var(s, FILTER_SANITIZE_STRING). */
  function Sanitizar(s: string): string
  {
    CodificarAspas(SemTags(s))
  }

  /** filter_var(s, FILTER_SANITIZE_STRING, FILTER_FLAG_EMPTY_STRING_NULL): a result that is empty is null. */
  function SanitizarOuNulo(s: string): (r: Option<string>)
    ensures r.Some? ==> r.value != "" && r.value == Sanitizar(s)
    ensures r.None? <==> Sanitizar(s) == ""
  {
    var t := Sanitizar(s);
    if t == "" then None else Some(t)
  }

  /** Every '<' the stripping keeps is followed by a blank. */
  predicate SoMenorTexto(s: string)
  {
    forall i :: 0 <= i < |s| && s[i] == '<' ==> i + 1 < |s| && IsCSpace(s[i + 1])
  }

  lemma {:induction false} SemTagsTexto(s: string)
    ensures SoMenorTexto(SemTags(s))
    decreases |s|
  {
    if s != [] {
      if s[0] == '<' && !(|s| >= 2 && IsCSpace(s[1])) {
        SemTagsTexto(AposTag(s[1..]));
      } else {
        SemTagsTexto(s[1..]);
        var r := SemTags(s);
        assert r == [s[0]] + SemTags(s[1..]);
        if s[0] == '<' {
          assert SemTags(s[1..]) == [s[1]] + SemTags(s[2..]);
        }
      }
    }
  }

  /** Text whose every '<' is followed by a blank has no tag to strip. */
  lemma {:induction false} SemTagsTextoFixo(s: string)
    requires SoMenorTexto(s)
    ensures SemTags(s) == s
    decreases |s|
  {
    if s != [] {
      assert SoMenorTexto(s[1..]) by {
        forall i | 0 <= i < |s[1..]| && s[1..][i] == '<' ensures i + 1 < |s[1..]| && IsCSpace(s[1..][i + 1]) {
          assert s[i + 1] == '<';
        }
      }
      SemTagsTextoFixo(s[1..]);
    }
  }

  lemma {:induction false} CodificarAspasSemAspas(s: string)
    requires '"' !in s && '\'' !in s
    ensures CodificarAspas(s) == s
    decreases |s|
  {
    if s != [] {
      CodificarAspasSemAspas(s[1..]);
    }
  }

  lemma {:induction false} CodificarAspasTexto(s: string)
    requires SoMenorTexto(s)
    ensures SoMenorTexto(CodificarAspas(s))
    decreases |s|
  {
    if s != [] {
      assert SoMenorTexto(s[1..]) by {
        forall i | 0 <= i < |s[1..]| && s[1..][i] == '<' ensures i + 1 < |s[1..]| && IsCSpace(s[1..][i + 1]) {
          assert s[i + 1] == '<';
        }
      }
      CodificarAspasTexto(s[1..]);
      var t := CodificarAspas(s[1..]);
      var h := if s[0] == '"' then "&#34;" else if s[0] == '\'' then "&#39;" else [s[0]];
      var r := h + t;
      assert r == CodificarAspas(s);
      forall i | 0 <= i < |r| && r[i] == '<' ensures i + 1 < |r| && IsCSpace(r[i + 1]) {
        if i >= |h| {
          assert t[i - |h|] == '<';
        } else {
          assert h == [s[0]] && s[0] == '<' && i == 0;
          assert IsCSpace(s[1]);
          assert t == [s[1]] + CodificarAspas(s[2..]);
          assert r[1] == s[1];
        }
      }
    }
  }

  /** Sanitizing twice is sanitizing once, and the result holds no quote. */
  lemma SanitizarIdempotente(s: string)
    ensures Sanitizar(Sanitizar(s)) == Sanitizar(s)
    ensures '"' !in Sanitizar(s) && '\'' !in Sanitizar(s)
  {
    var t := SemTags(s);
    SemTagsTexto(s);
    CodificarAspasTexto(t);
    SemTagsTextoFixo(CodificarAspas(t));
    CodificarAspasSemAspas(CodificarAspas(t));
  }

  /** Plain text (no '<' and no quote) goes through unchanged. */
  lemma SanitizarTextoSimples(s: string)
    requires '<' !in s && '"' !in s && '\'' !in s
    ensures Sanitizar(s) == s
  {
    SemTagsTextoFixo(s);
    CodificarAspasSemAspas(s);
  }

  // ------------------------------------------------------- FILTER_VALIDATE_INT

  /** The digits of an integer after its optional sign: "0", or a digit 1-9 followed by digits. */
  function LerInteiroSemSinal(t: string): (r: Option<nat>)
    ensures r.Some? ==> AllDigits(t) && r.value == ParseNat(t)
  {
    if t == "0" then Some(0)
    else if |t| >= 1 && '1' <= t[0] <= '9' && AllDigits(t) then Some(ParseNat(t))
    else None
  }

  /** An integer with an optional sign, as FILTER_VALIDATE_INT reads it once trimmed. */
  function LerSinalizado(t: string): (r: Option<int>)
  {
    if t == [] then None
    else if t[0] == '-' then
      match LerInteiroSemSinal(t[1..]) case Some(n) => Some(-(n as int)) case None => None
    else if t[0] == '+' then
      match LerInteiroSemSinal(t[1..]) case Some(n) => Some(n) case None => None
    else
      match LerInteiroSemSinal(t) case Some(n) => Some(n) case None => None
  }

  /** The integer a text holds for FILTER_VALIDATE_INT, after trimming. */
  function LerInteiro(s: string): (r: Option<int>)
  {
    LerSinalizado(Trim(s, BRANCOS_FILTRO))
  }

  /** PHP_INT_MIN and PHP_INT_MAX of a 64-bit build. */
  const PHP_INT_MIN: int := -0x8000_0000_0000_0000
  const PHP_INT_MAX: int := 0x7fff_ffff_ffff_ffff

  /** An integer a PHP int can hold. */
  predicate InteiroPhp(n: int)
  {
    PHP_INT_MIN <= n <= PHP_INT_MAX
  }

  /**
   * FILTER_VALIDATE_INT on any value: integers pass, true reads as 1, strings
   * are parsed and fail when the number does not fit a PHP int, the rest fail.
   */
  function ValidarInt(v: Value): (r: Option<int>)
    ensures v.Int? ==> r == Some(v.i)
    ensures v.Null? || v.Arr? || v.Obj? || v == Bool(false) ==> r.None?
    ensures v.Str? && r.Some? ==> InteiroPhp(r.value) && LerInteiro(v.s) == r
  {
    match v
    case Int(i) => Some(i)
    case Bool(b) => if b then Some(1) else None
    case Str(s) =>
      (match LerInteiro(s)
       case Some(n) => if InteiroPhp(n) then Some(n) else None
       case None => None)
    case _ => None
  }

  /** FILTER_VALIDATE_INT with min_range, max_range and default: a value outside the range, or none, gives the default. */
  function ValidarIntFaixa(v: Value, min: int, max: int, padrao: int): (r: int)
    requires min <= padrao <= max
    ensures min <= r <= max
    ensures ValidarInt(v).Some? && min <= ValidarInt(v).value <= max ==> r == ValidarInt(v).value
    ensures !(ValidarInt(v).Some? && min <= ValidarInt(v).value <= max) ==> r == padrao
  {
    match ValidarInt(v)
    case Some(i) => if min <= i <= max then i else padrao
    case None => padrao
  }

  lemma NatToStringPrimeiro(n: nat)
    ensures n > 0 ==> NatToString(n)[0] != '0'
    ensures n == 0 ==> NatToString(n) == "0"
  {
    if n >= 10 {
      NatToStringPrimeiro(n / 10);
    }
  }

  /** A text that neither starts nor ends with a blank is its own trim. */
  lemma TrimSemBrancos(s: string, cs: set<char>)
    requires s != [] && s[0] !in cs && s[|s| - 1] !in cs
    ensures Trim(s, cs) == s
  {
    assert TrimLeft(s, cs) == s;
  }

  lemma LerSemSinalNat(n: nat)
    ensures LerInteiroSemSinal(NatToString(n)) == Some(n)
  {
    NatToStringPrimeiro(n);
    ParseNatToString(n);
  }

  lemma LerSinalizadoDigitos(d: string, n: nat)
    requires d != [] && IsDigit(d[0]) && LerInteiroSemSinal(d) == Some(n)
    ensures LerSinalizado(d) == Some(n)
  {
  }

  lemma TrimDigitos(d: string)
    requires d != [] && IsDigit(d[0]) && IsDigit(d[|d| - 1])
    ensures Trim(d, BRANCOS_FILTRO) == d
  {
    TrimSemBrancos(d, BRANCOS_FILTRO);
  }

  lemma LerInteiroNat(n: nat)
    ensures LerInteiro(NatToString(n)) == Some(n)
  {
    var d := NatToString(n);
    LerSemSinalNat(n);
    TrimDigitos(d);
    LerSinalizadoDigitos(d, n);
  }

  lemma LerSinalizadoNegativo(d: string, n: nat)
    requires LerInteiroSemSinal(d) == Some(n)
    ensures LerSinalizado("-" + d) == Some(-(n as int))
  {
    assert ("-" + d)[1..] == d;
  }

  lemma LerInteiroNegativo(n: int)
    requires n < 0
    ensures LerInteiro(IntText(n)) == Some(n)
  {
    var d := NatToString(-n);
    var s := IntText(n);
    assert s == "-" + d;
    LerSemSinalNat(-n);
    assert s[|s| - 1] == d[|d| - 1];
    TrimSemBrancos(s, BRANCOS_FILTRO);
    LerSinalizadoNegativo(d, -n);
  }

  /** Every integer written in decimal is read back by FILTER_VALIDATE_INT. */
  lemma LerInteiroIntText(n: int)
    ensures LerInteiro(IntText(n)) == Some(n)
  {
    if n >= 0 {
      LerInteiroNat(n);
    } else {
      LerInteiroNegativo(n);
    }
  }

  /**
   * The decimal text of an integer passes FILTER_VALIDATE_INT exactly when the
   * integer fits a PHP int, and then reads back as that integer.
   */
  lemma ValidarIntTexto(n: int)
    ensures ValidarInt(Str(IntText(n))) == if InteiroPhp(n) then Some(n) else None
  {
    LerInteiroIntText(n);
  }

  // ------------------------------------------------------- FILTER_VALIDATE_IP

  /** One octet of a dotted quad: up to three digits, no leading zero, at most 255. */
  predicate Octeto(p: string)
  {
    1 <= |p| <= 3 && AllDigits(p) && (p[0] != '0' || p == "0") && ParseNat(p) <= 255
  }

  /** An IPv4 address in dotted-quad form. */
  predicate IPv4(s: string)
  {
    var partes := Split(s, '.');
    |partes| == 4 && forall i :: 0 <= i < 4 ==> Octeto(partes[i])
  }

  predicate IsHexDigit(c: char)
  {
    IsDigit(c) || 'a' <= c <= 'f' || 'A' <= c <= 'F'
  }

  /** One 16-bit group of an IPv6 address: one to four hexadecimal digits. */
  predicate Grupo(g: string)
  {
    1 <= |g| <= 4 && forall i :: 0 <= i < |g| ==> IsHexDigit(g[i])
  }

  /** The groups of a run separated by single colons; an empty run has none. */
  function Grupos(h: string): (r: seq<string>)
  {
    if h == [] then [] else Split(h, ':')
  }

  predicate GruposValidos(h: string)
  {
    var gs := Grupos(h);
    forall i :: 0 <= i < |gs| ==> Grupo(gs[i])
  }

  /** Where the first "::" of a text starts, if it has one. */
  function DuploDoisPontos(s: string): (r: Option<nat>)
    ensures r.Some? ==> r.value + 1 < |s| && s[r.value] == ':' && s[r.value + 1] == ':'
    ensures r.None? ==> forall k :: 0 <= k < |s| - 1 ==> !(s[k] == ':' && s[k + 1] == ':')
    decreases |s|
  {
    if |s| < 2 then None
    else if s[0] == ':' && s[1] == ':' then Some(0)
    else match DuploDoisPontos(s[1..])
      case None => None
      case Some(k) => Some(k + 1)
  }

  /**
   * The hexadecimal part of an IPv6 address that must supply `n` groups (section 2.2 of
   * RFC 4291): exactly n groups, or groups on both sides of one "::" standing for at least one
   * group of zeros.
   */
  predicate ParteHex(h: string, n: nat)
  {
    match DuploDoisPontos(h)
    case None => GruposValidos(h) && |Grupos(h)| == n
    case Some(p) =>
      GruposValidos(h[..p]) && GruposValidos(h[p + 2..]) && |Grupos(h[..p])| + |Grupos(h[p + 2..])| < n
  }

  /** The first position of c in s. */
  function Primeiro(s: string, c: char): (k: nat)
    requires c in s
    ensures k < |s| && s[k] == c && c !in s[..k]
  {
    if s[0] == c then 0
    else
      var k := Primeiro(s[1..], c);
      assert s[..k + 1] == [s[0]] + s[1..][..k];
      k + 1
  }

  /** Where the run holding position k starts: just after the last ':' before k. */
  function InicioBloco(s: string, k: nat): (j: nat)
    requires k <= |s|
    ensures j <= k && (j == 0 || s[j - 1] == ':')
    ensures forall i :: j <= i < k ==> s[i] != ':'
  {
    if k == 0 || s[k - 1] == ':' then k else InicioBloco(s, k - 1)
  }

  /**
   * An IPv6 address in any text form of section 2.2 of RFC 4291. When the text holds a '.',
   * its last run is a dotted quad standing for two groups, and the colon before it belongs to
   * the hexadecimal part only when it is the second of a "::".
   */
  predicate IPv6(s: string)
  {
    ':' in s &&
    if '.' in s then
      var j := InicioBloco(s, Primeiro(s, '.'));
      j >= 2 && IPv4(s[j..]) && ParteHex(if s[j - 2] == ':' then s[..j] else s[..j - 1], 6)
    else ParteHex(s, 8)
  }

  /**
   * filter_var(ip, FILTER_VALIDATE_IP, FILTER_NULL_ON_FAILURE): a text with a ':' is read as
   * an IPv6 address, else one with a '.' as an IPv4 address, else it fails; the address itself
   * comes back when it is valid, null otherwise. Surrounding blanks are not trimmed.
   */
  function ValidarIp(ip: string): (r: Option<string>)
    ensures r.Some? ==> r.value == ip
    ensures ':' in ip ==> (r.Some? <==> IPv6(ip))
    ensures ':' !in ip ==> (r.Some? <==> IPv4(ip))
  {
    if ':' in ip then (if IPv6(ip) then Some(ip) else None)
    else if '.' in ip && IPv4(ip) then Some(ip)
    else
      IPv4TemPonto(ip);
      None
  }

  /** A dotted quad holds a '.', so the filter's choice of IPv4 mode never turns one away. */
  lemma IPv4TemPonto(s: string)
    ensures IPv4(s) ==> '.' in s
  {
    if '.' !in s {
      SplitNoSeparator(s, '.');
    }
  }

  /** The dotted quad of four bytes. */
  function TextoIPv4(a: nat, b: nat, c: nat, d: nat): string
  {
    Join([NatToString(a), NatToString(b), NatToString(c), NatToString(d)], ".")
  }

  lemma OctetoNat(n: nat)
    requires n <= 255
    ensures Octeto(NatToString(n)) && '.' !in NatToString(n)
  {
    NatToStringPrimeiro(n);
    ParseNatToString(n);
    var s := NatToString(n);
    if n >= 100 {
      assert NatToString(n / 10) == NatToString(n / 10 / 10) + [DigitChar(n / 10 % 10)];
    }
    assert |s| <= 3;
    assert forall i :: 0 <= i < |s| ==> IsDigit(s[i]);
  }

  lemma JoinQuatro(p: seq<string>)
    requires |p| == 4
    ensures Join(p, ".") == p[0] + "." + (p[1] + "." + (p[2] + "." + p[3]))
  {
    assert p[1..][1..][1..] == [p[3]];
    assert Join(p[1..][1..], ".") == p[2] + "." + p[3];
    assert Join(p[1..], ".") == p[1] + "." + (p[2] + "." + p[3]);
  }

  /** The text of four octets joined with dots is a dotted quad. */
  lemma QuadIPv4(partes: seq<string>)
    requires |partes| == 4 && forall i :: 0 <= i < 4 ==> Octeto(partes[i]) && '.' !in partes[i]
    ensures IPv4(Join(partes, "."))
  {
    SplitJoin(partes, '.');
  }

  lemma QuadSemDoisPontos(partes: seq<string>)
    requires |partes| == 4 && forall i :: 0 <= i < 4 ==> Octeto(partes[i])
    ensures ':' !in Join(partes, ".")
  {
    forall i | 0 <= i < 4
      ensures ':' !in partes[i]
    {
      DigitosSemChar(partes[i], ':');
    }
    if ':' in Join(partes, ".") {
      JoinChars(partes, ".", ':');
      assert false;
    }
  }

  /** A run of digits holds no character that is not a digit. */
  lemma DigitosSemChar(p: string, c: char)
    requires AllDigits(p) && !IsDigit(c)
    ensures c !in p
  {
    assert forall j :: 0 <= j < |p| ==> p[j] != c;
  }

  /** Every address written from four bytes passes the filter unchanged. */
  lemma ValidarIpQuad(a: nat, b: nat, c: nat, d: nat)
    requires a <= 255 && b <= 255 && c <= 255 && d <= 255
    ensures ValidarIp(TextoIPv4(a, b, c, d)) == Some(TextoIPv4(a, b, c, d))
  {
    var partes := [NatToString(a), NatToString(b), NatToString(c), NatToString(d)];
    OctetoNat(a);
    OctetoNat(b);
    OctetoNat(c);
    OctetoNat(d);
    QuadIPv4(partes);
    QuadSemDoisPontos(partes);
  }

  /** No "::" where non-empty groups are joined with single colons. */
  lemma {:induction false} JoinSemDuplo(gs: seq<string>)
    requires |gs| >= 1 && forall i :: 0 <= i < |gs| ==> gs[i] != [] && ':' !in gs[i]
    ensures var t := Join(gs, ":");
      t != [] && t[0] == gs[0][0] && forall k :: 0 <= k < |t| - 1 ==> !(t[k] == ':' && t[k + 1] == ':')
    decreases |gs|
  {
    if |gs| > 1 {
      JoinSemDuplo(gs[1..]);
      var g := gs[0];
      var r := Join(gs[1..], ":");
      var t := Join(gs, ":");
      assert t == g + ":" + r;
      forall k | 0 <= k < |t| - 1 ensures !(t[k] == ':' && t[k + 1] == ':') {
        if k < |g| {
          assert t[k] == g[k];
        } else if k > |g| {
          assert t[k] == r[k - |g| - 1] && t[k + 1] == r[k - |g|];
        } else {
          assert t[k + 1] == r[0] == gs[1][0];
        }
      }
    }
  }

  /** Eight groups joined with single colons, the full form of section 2.2 of RFC 4291, pass the filter unchanged. */
  lemma ValidarIpOitoGrupos(gs: seq<string>)
    requires |gs| == 8 && forall i :: 0 <= i < 8 ==> Grupo(gs[i])
    ensures ValidarIp(Join(gs, ":")) == Some(Join(gs, ":"))
  {
    var t := Join(gs, ":");
    assert forall i :: 0 <= i < 8 ==> ':' !in gs[i] && '.' !in gs[i];
    JoinSemDuplo(gs);
    SplitJoin(gs, ':');
    assert Grupos(t) == gs;
    assert t == gs[0] + ":" + Join(gs[1..], ":");
    assert ':' in t by { assert t[|gs[0]|] == ':'; }
    if '.' in t {
      JoinChars(gs, ":", '.');
    }
  }

  /** The loopback address in its compressed form passes. */
  lemma ValidarIpLoopback()
    ensures ValidarIp("::1") == Some("::1")
  {
    assert DuploDoisPontos("::1") == Some(0);
    assert "::1"[..0] == [] && "::1"[2..] == "1";
    SplitNoSeparator("1", ':');
    assert ParteHex("::1", 8);
    assert '.' !in "::1";
  }

  /** "::" may appear only once. */
  lemma ValidarIpDoisDuplos()
    ensures ValidarIp("1::2::3") == None
  {
    var s := "1::2::3";
    assert DuploDoisPontos(s) == Some(1) by {
      assert s[1..] == "::2::3";
    }
    assert s[3..] == "2::3";
    assert Split("2::3", ':')[1] == "" by {
      assert "2::3"[1..] == "::3" && "::3"[1..] == ":3";
    }
    assert !ParteHex(s, 8);
    assert '.' !in s;
  }

  /** Unlike the integer filter, the address filter does not trim: a leading blank fails it. */
  lemma ValidarIpSemTrim()
    ensures ValidarIp(" 10.0.0.1") == None
  {
    var s := " 10.0.0.1";
    var p := Split(s, '.');
    assert p[0] == [' '] + Split(s[1..], '.')[0];
    assert !IsDigit(p[0][0]);
    assert ':' !in s;
  }

  // ------------------------------------------------------- values of any type

  /**
   * filter_var(v, FILTER_SANITIZE_STRING, FILTER_FLAG_EMPTY_STRING_NULL) on any
   * value: scalars are sanitized as their text; null, arrays and objects give
   * null (arrays and objects fail the filter).
   */
  function SanitizarValor(v: Value): (r: Option<string>)
    ensures v.Str? ==> r == SanitizarOuNulo(v.s)
    ensures v.Null? || v.Arr? || v.Obj? ==> r.None?
    ensures r.Some? ==> r.value != "" && '"' !in r.value && '\'' !in r.value
  {
    match v
    case Null => None
    case Arr(_) => None
    case Obj(_) => None
    case _ => SanitizarOuNulo(ValueText(v))
  }

  /** FILTER_DEFAULT on a value inside an array: scalars and null become their text; an object fails (null). */
  function TextoPadrao(v: Value): (r: Value)
    ensures r.Str? || r.Null?
    ensures v.Str? ==> r == v
    ensures v.Int? ==> r == Str(IntText(v.i))
  {
    match v
    case Obj(_) => Null
    case Arr(_) => Null
    case _ => Str(ValueText(v))
  }

  /**
   * filter_var(v, FILTER_DEFAULT, FILTER_REQUIRE_ARRAY | FILTER_NULL_ON_FAILURE):
   * an array keeps its keys and nesting, with every leaf turned into text;
   * anything else is null.
   */
  function FiltroPadraoArray(v: Value): (r: Option<seq<(Key, Value)>>)
    ensures r.Some? <==> v.Arr?
    ensures r.Some? ==> |r.value| == |v.entries|
  {
    if v.Arr? then Some(Vetores.ArrayMapRecursivo((x, k) => TextoPadrao(x), v.entries)) else None
  }

  /** Entry by entry: the same key, a leaf turned into text, a nested array filtered in turn. */
  lemma FiltroPadraoEntrada(a: seq<(Key, Value)>, j: int)
    requires 0 <= j < |a|
    ensures FiltroPadraoArray(Arr(a)).value[j].0 == a[j].0
    ensures !a[j].1.Arr? ==> FiltroPadraoArray(Arr(a)).value[j].1 == TextoPadrao(a[j].1)
    ensures a[j].1.Arr? ==> FiltroPadraoArray(Arr(a)).value[j].1 == Arr(FiltroPadraoArray(a[j].1).value)
  {
    Vetores.MapKeepsStructure((x, k) => TextoPadrao(x), a, j);
  }
}
