// PHP's json_encode of strings, null and a flat object of strings, with the
// default flags: '"', '\' and '/' are escaped, control characters and every
// non-ASCII character become \uXXXX escapes (lower-case hex; characters beyond
// the Basic Multilingual Plane as a UTF-16 surrogate pair). A reader for the
// same grammar states what the encoding means: it gives the text back.

module Json {
  import opened Wrappers

  /** A lower-case hex digit, as json_encode writes it. */
  function HexDigito(d: int): char
    requires 0 <= d < 16
  {
    if d < 10 then ('0' as int + d) as char else ('a' as int + d - 10) as char
  }

  /** Four lower-case hex digits of a UTF-16 code unit. */
  function Hex4(n: int): (r: string)
    requires 0 <= n < 0x10000
    ensures |r| == 4
  {
    [HexDigito(n / 4096), HexDigito(n / 256 % 16), HexDigito(n / 16 % 16), HexDigito(n % 16)]
  }

  /** The value of a hex digit of either case. */
  function ValorHex(c: char): (r: Option<int>)
    ensures r.Some? ==> 0 <= r.value < 16
  {
    if '0' <= c <= '9' then Some(c as int - '0' as int)
    else if 'a' <= c <= 'f' then Some(c as int - 'a' as int + 10)
    else if 'A' <= c <= 'F' then Some(c as int - 'A' as int + 10)
    else None
  }

  function LerHex4(t: string): (r: Option<int>)
    requires |t| == 4
    ensures r.Some? ==> 0 <= r.value < 0x10000
  {
    match (ValorHex(t[0]), ValorHex(t[1]), ValorHex(t[2]), ValorHex(t[3]))
    case (Some(a), Some(b), Some(c), Some(d)) => Some(a * 4096 + b * 256 + c * 16 + d)
    case _ => None
  }

  function Unidade(n: int): (r: string)
    requires 0 <= n < 0x10000
    ensures |r| == 6 && r[0] == '\\' && r[1] == 'u' && r[2..] == Hex4(n)
  {
    "\\u" + Hex4(n)
  }

  /** How json_encode writes one character inside a string. */
  function EscaparChar(c: char): (r: string)
    ensures r != []
  {
    var n := c as int;
    if c == '"' then "\\\""
    else if c == '\\' then "\\\\"
    else if c == '/' then "\\/"
    else if n == 8 then "\\b"
    else if n == 12 then "\\f"
    else if c == '\n' then "\\n"
    else if c == '\r' then "\\r"
    else if c == '\t' then "\\t"
    else if n < 0x20 then Unidade(n)
    else if n < 0x80 then [c]
    else if n < 0x10000 then Unidade(n)
    else
      var m := n - 0x10000;
      Unidade(0xD800 + m / 0x400) + Unidade(0xDC00 + m % 0x400)
  }

  function Escapar(s: string): string
    decreases |s|
  {
    if s == [] then [] else EscaparChar(s[0]) + Escapar(s[1..])
  }

  /** json_encode of a string. */
  function TextoJson(s: string): string
  {
    "\"" + Escapar(s) + "\""
  }

  /** json_encode of a string or null. */
  function TalvezTextoJson(s: Option<string>): string
  {
    match s
    case Some(t) => TextoJson(t)
    case None => "null"
  }

  // ------------------------------------------------------------------ reading

  function Prefixar(c: char, o: Option<(string, string)>): Option<(string, string)>
  {
    match o
    case Some((s, resto)) => Some(([c] + s, resto))
    case None => None
  }

  /** The character of a one-letter escape. */
  function Simples(e: char): Option<char>
  {
    if e == '"' then Some('"')
    else if e == '\\' then Some('\\')
    else if e == '/' then Some('/')
    else if e == 'b' then Some(8 as char)
    else if e == 'f' then Some(12 as char)
    else if e == 'n' then Some('\n')
    else if e == 'r' then Some('\r')
    else if e == 't' then Some('\t')
    else None
  }

  /** The character a high and a low surrogate stand for together. */
  function Par(alto: int, baixo: int): char
    requires 0xD800 <= alto < 0xDC00 && 0xDC00 <= baixo < 0xE000
  {
    (0x10000 + (alto - 0xD800) * 0x400 + (baixo - 0xDC00)) as char
  }

  /**
   * The body of a JSON string, up to its closing quote: the characters it
   * stands for and the text after the quote; None when it is malformed.
   */
  function LerCorpo(t: string): (r: Option<(string, string)>)
    decreases |t|
  {
    if t == [] then None
    else if t[0] == '"' then Some(([], t[1..]))
    else if (t[0] as int) < 0x20 then None
    else if t[0] != '\\' then Prefixar(t[0], LerCorpo(t[1..]))
    else if |t| < 2 then None
    else if t[1] != 'u' then
      match Simples(t[1])
      case Some(c) => Prefixar(c, LerCorpo(t[2..]))
      case None => None
    else if |t| < 6 then None
    else
      match LerHex4(t[2..6])
      case None => None
      case Some(n) =>
        if 0xDC00 <= n < 0xE000 then None
        else if n < 0xD800 || n >= 0xE000 then Prefixar(n as char, LerCorpo(t[6..]))
        else if |t| < 12 || t[6] != '\\' || t[7] != 'u' then None
        else
          match LerHex4(t[8..12])
          case None => None
          case Some(m) =>
            if 0xDC00 <= m < 0xE000 then Prefixar(Par(n, m), LerCorpo(t[12..])) else None
  }

  /** A JSON string token at the start of t, and what follows it. */
  function LerTexto(t: string): Option<(string, string)>
  {
    if t != [] && t[0] == '"' then LerCorpo(t[1..]) else None
  }

  lemma HexDigitoVolta(d: int)
    requires 0 <= d < 16
    ensures ValorHex(HexDigito(d)) == Some(d)
  {
  }

  lemma Hex4Soma(n: int)
    requires 0 <= n < 0x10000
    ensures n / 4096 * 4096 + n / 256 % 16 * 256 + n / 16 % 16 * 16 + n % 16 == n
  {
    var q := n / 16;
    assert n == q * 16 + n % 16;
    var q2 := q / 16;
    assert q == q2 * 16 + q % 16;
    var q3 := q2 / 16;
    assert q2 == q3 * 16 + q2 % 16;
    assert n / 256 == q2;
    assert n / 4096 == q3;
    assert q2 % 16 == n / 256 % 16;
  }

  lemma Hex4Volta(n: int)
    requires 0 <= n < 0x10000
    ensures LerHex4(Hex4(n)) == Some(n)
  {
    var a, b, c, d := n / 4096, n / 256 % 16, n / 16 % 16, n % 16;
    HexDigitoVolta(a);
    HexDigitoVolta(b);
    HexDigitoVolta(c);
    HexDigitoVolta(d);
    Hex4Soma(n);
  }

  lemma UnidadeVolta(n: int, u: string)
    requires 0 <= n < 0x10000
    ensures (Unidade(n) + u)[2..6] == Hex4(n) && (Unidade(n) + u)[6..] == u
    ensures |Unidade(n) + u| >= 6 && (Unidade(n) + u)[0] == '\\' && (Unidade(n) + u)[1] == 'u'
  {
  }

  lemma UnidadeSimples(n: int, u: string)
    requires 0 <= n < 0xD800 || 0xE000 <= n < 0x10000
    ensures LerCorpo(Unidade(n) + u) == Prefixar(n as char, LerCorpo(u))
  {
    UnidadeVolta(n, u);
    Hex4Volta(n);
  }

  lemma ParVolta(m: int)
    requires 0 <= m < 0x100000
    ensures Par(0xD800 + m / 0x400, 0xDC00 + m % 0x400) as int == 0x10000 + m
  {
    assert m == m / 0x400 * 0x400 + m % 0x400;
  }

  /** Two \u escapes, a high then a low surrogate, read as the character they pair up to. */
  lemma LerPar(alto: int, baixo: int, u: string)
    requires 0xD800 <= alto < 0xDC00 && 0xDC00 <= baixo < 0xE000
    ensures LerCorpo(Unidade(alto) + Unidade(baixo) + u) == Prefixar(Par(alto, baixo), LerCorpo(u))
  {
    var t := Unidade(alto) + Unidade(baixo) + u;
    assert t == Unidade(alto) + (Unidade(baixo) + u);
    UnidadeVolta(alto, Unidade(baixo) + u);
    UnidadeVolta(baixo, u);
    Hex4Volta(alto);
    Hex4Volta(baixo);
    assert t[8..12] == Hex4(baixo);
    assert t[12..] == u;
  }

  lemma UnidadePar(c: char, u: string)
    requires c as int >= 0x10000
    ensures var m := c as int - 0x10000;
      LerCorpo(Unidade(0xD800 + m / 0x400) + Unidade(0xDC00 + m % 0x400) + u) == Prefixar(c, LerCorpo(u))
  {
    var m := c as int - 0x10000;
    var alto, baixo := 0xD800 + m / 0x400, 0xDC00 + m % 0x400;
    LerPar(alto, baixo, u);
    ParVolta(m);
    assert Par(alto, baixo) == c;
  }

  /** Reading an escaped character gives that character back, whatever follows it. */
  lemma EscaparCharVolta(c: char, u: string)
    ensures LerCorpo(EscaparChar(c) + u) == Prefixar(c, LerCorpo(u))
  {
    var n := c as int;
    var t := EscaparChar(c) + u;
    if c == '"' || c == '\\' || c == '/' || n == 8 || n == 12 || c == '\n' || c == '\r' || c == '\t' {
      assert t[2..] == u;
    } else if n < 0x20 {
      UnidadeSimples(n, u);
    } else if n < 0x80 {
      assert t[1..] == u;
    } else if n < 0x10000 {
      UnidadeSimples(n, u);
    } else {
      UnidadePar(c, u);
    }
  }

  lemma {:induction false} EscaparVolta(s: string, resto: string)
    ensures LerCorpo(Escapar(s) + "\"" + resto) == Some((s, resto))
    decreases |s|
  {
    if s == [] {
      assert Escapar(s) + "\"" + resto == "\"" + resto;
    } else {
      var u := Escapar(s[1..]) + "\"" + resto;
      assert Escapar(s) + "\"" + resto == EscaparChar(s[0]) + u;
      EscaparCharVolta(s[0], u);
      EscaparVolta(s[1..], resto);
      assert [s[0]] + s[1..] == s;
    }
  }

  /** A string encoded by json_encode reads back as itself, and the reader stops right after it. */
  lemma TextoJsonVolta(s: string, resto: string)
    ensures LerTexto(TextoJson(s) + resto) == Some((s, resto))
  {
    var t := TextoJson(s) + resto;
    assert t[1..] == Escapar(s) + "\"" + resto;
    EscaparVolta(s, resto);
  }

  /** A string without quotes, backslashes, slashes, control or non-ASCII characters is written as it is. */
  lemma {:induction false} EscaparAscii(s: string)
    requires forall i :: 0 <= i < |s| ==> 0x20 <= s[i] as int < 0x80 && s[i] !in "\"\\/"
    ensures Escapar(s) == s
    decreases |s|
  {
    if s != [] {
      EscaparAscii(s[1..]);
    }
  }
}
