// DLX\Classes\PDODL (dlx/classes/pdodl.classe.php): the connection class of the
// framework. The model covers what it computes without the database: the
// connection details read from the DSN, the pagination rewrite of a query, the
// escaping of values and the prefix stripping of primary-key names. Running a
// query and the schema lookups are not part of this model.

module Pdodl {
  import opened Wrappers
  import opened Text
  import opened Values
  import opened Strings

  // ------------------------------------------------------------- infosDSN

  /** [\w.\-], the characters of a host name. */
  predicate IsHostChar(c: char)
  {
    IsWordChar(c) || c == '.' || c == '-'
  }

  /** `~^([a-z]+):~`: the lower-case driver name at the start of the DSN, when a ':' follows it. */
  function DriverDSN(dsn: string): (r: Option<string>)
    ensures r.Some? ==> |r.value| >= 1 && StartsWith(dsn, r.value + ":")
    ensures r.Some? ==> forall i :: 0 <= i < |r.value| ==> IsLowerAscii(r.value[i])
  {
    var n := RunLength(dsn, IsLowerAscii);
    if n > 0 && n < |dsn| && dsn[n] == ':' then
      assert (dsn[..n] + ":") == dsn[..n + 1];
      Some(dsn[..n])
    else None
  }

  /** No DSN that starts with lower-case letters and a ':' is without a driver. */
  lemma DriverDSNCompleto(dsn: string, n: int)
    requires 1 <= n < |dsn| && dsn[n] == ':'
    requires forall k :: 0 <= k < n ==> IsLowerAscii(dsn[k])
    ensures DriverDSN(dsn) == Some(dsn[..n])
  {
  }

  /** The host, port and database name the DSN gives. */
  function HostDSN(dsn: string): Option<string>
  {
    Capturar(dsn, "host=", IsHostChar, 0, 0)
  }

  function PortaDSN(dsn: string): Option<string>
  {
    Capturar(dsn, "port=", IsDigit, 6, 0)
  }

  function BdDSN(dsn: string): Option<string>
  {
    Capturar(dsn, "dbname=", IsWordChar, 0, 0)
  }

  /** strtoupper of the driver name the DSN starts with. */
  function DriverMaiusculo(dsn: string): Option<string>
  {
    match DriverDSN(dsn)
    case Some(d) => Some(Upper(d))
    case None => None
  }

  /** A value found, or else the one kept. */
  function Ou(novo: Option<string>, antigo: Option<string>): (r: Option<string>)
    ensures novo.Some? ==> r == novo
    ensures novo.None? ==> r == antigo
  {
    if novo.Some? then novo else antigo
  }

  /** `chave` occurs at j and is followed by a character of the class. */
  predicate Casa(s: string, chave: string, classe: char -> bool, j: int)
  {
    0 <= j && j + |chave| < |s| && s[j..j + |chave|] == chave && classe(s[j + |chave|])
  }

  /** j is the leftmost match from i on. */
  predicate Primeira(s: string, chave: string, classe: char -> bool, i: int, j: int)
  {
    i <= j && Casa(s, chave, classe, j) && forall k :: i <= k < j ==> !Casa(s, chave, classe, k)
  }

  /** The run of the class after `chave` at j, cut at `max` characters when max > 0. */
  function Corrida(s: string, chave: string, classe: char -> bool, max: nat, j: int): string
    requires Casa(s, chave, classe, j)
  {
    var n := RunLength(s[j + |chave|..], classe);
    s[j + |chave|..j + |chave| + (if max > 0 && n > max then max else n)]
  }

  /**
   * `~chave(class+)~` (or `class{1,max}`), searched from i on: the leftmost
   * occurrence of `chave` that a class character follows, and the greedy run there.
   */
  function Capturar(s: string, chave: string, classe: char -> bool, max: nat, i: nat): (r: Option<string>)
    requires i <= |s|
    ensures r.None? <==> forall j :: i <= j ==> !Casa(s, chave, classe, j)
    ensures r.Some? ==> exists j :: Primeira(s, chave, classe, i, j) && r.value == Corrida(s, chave, classe, max, j)
    decreases |s| - i
  {
    if i + |chave| >= |s| then None
    else if Casa(s, chave, classe, i) then Some(Corrida(s, chave, classe, max, i))
    else
      var r := Capturar(s, chave, classe, max, i + 1);
      assert forall k :: i <= k < i + 1 ==> !Casa(s, chave, classe, k);
      r
  }

  /** The run after a match is a non-empty run of class characters, at most max long, that follows `chave` in s. */
  lemma CorridaValor(s: string, chave: string, classe: char -> bool, max: nat, j: int)
    requires Casa(s, chave, classe, j)
    ensures var v := Corrida(s, chave, classe, max, j);
      1 <= |v| && (max > 0 ==> |v| <= max) && (forall k :: 0 <= k < |v| ==> classe(v[k])) && OccursAt(s, chave + v, j)
  {
    var v := Corrida(s, chave, classe, max, j);
    var t := s[j + |chave|..];
    assert t[0] == s[j + |chave|];
    var n := RunLength(t, classe);
    assert v == t[..|v|];
    forall k | 0 <= k < |v|
      ensures classe(v[k])
    {
      assert v[k] == t[k];
    }
    assert s[j..j + |chave| + |v|] == s[j..j + |chave|] + v;
  }

  /** A captured value is a non-empty run of class characters, at most max long, that follows `chave` in s. */
  lemma CapturarValor(s: string, chave: string, classe: char -> bool, max: nat)
    requires Capturar(s, chave, classe, max, 0).Some?
    ensures var v := Capturar(s, chave, classe, max, 0).value;
      1 <= |v| && (max > 0 ==> |v| <= max) && (forall k :: 0 <= k < |v| ==> classe(v[k])) && Occurs(s, chave + v)
  {
    var v := Capturar(s, chave, classe, max, 0).value;
    var j :| Primeira(s, chave, classe, 0, j) && v == Corrida(s, chave, classe, max, j);
    CorridaValor(s, chave, classe, max, j);
    assert OccursAt(s, chave + v, j);
  }

  class PDODL {
    var driver: Option<string>
    var host: Option<string>
    var porta: Option<string>
    var bd: Option<string>

    /** The connection built from a DSN: every detail the DSN names is read, the others stay null. */
    constructor (dsn: string)
      ensures driver == DriverMaiusculo(dsn)
      ensures host == HostDSN(dsn)
      ensures porta == PortaDSN(dsn)
      ensures bd == BdDSN(dsn)
    {
      driver := None;
      host := None;
      porta := None;
      bd := None;
      new;
      InfosDSN(dsn);
    }

    /** infosDSN: each detail found in the DSN is stored; a detail the DSN lacks keeps its old value. */
    method InfosDSN(dsn: string)
      modifies this
      ensures driver == Ou(DriverMaiusculo(dsn), old(driver))
      ensures host == Ou(HostDSN(dsn), old(host))
      ensures porta == Ou(PortaDSN(dsn), old(porta))
      ensures bd == Ou(BdDSN(dsn), old(bd))
    {
      driver := Ou(DriverMaiusculo(dsn), driver);
      host := Ou(HostDSN(dsn), host);
      porta := Ou(PortaDSN(dsn), porta);
      bd := Ou(BdDSN(dsn), bd);
    }

    predicate EMssql()
      reads this
    {
      driver == Some("MSSQL") || driver == Some("DBLIB")
    }

    /**
     * paginacao with exec = false: the query rewritten for page pgn of qtde rows.
     * For MSSQL the captures of the SELECT/FROM/WHERE/GROUP BY/ORDER BY pattern on
     * the query are the parameter `grupos`.
     */
    function Paginacao(query: string, pgn: int, qtde: int, grupos: seq<string>): string
      reads this
    {
      var inicio := if pgn == 1 then 0 else (pgn - 1) * qtde;
      if qtde <= 0 then query
      else if EMssql() then PaginacaoMssql(grupos, pgn, qtde)
      else RemoverLimit(query) + " LIMIT " + IntText(inicio) + "," + IntText(qtde)
    }

    /**
     * incluirEscape: non-strings as they are; MSSQL strings as the hexadecimal of their UTF-8
     * bytes; other drivers' strings through addslashes (which only touches ASCII bytes, so it
     * is written on characters).
     */
    function IncluirEscape(v: Value): (r: Value)
      reads this
      ensures !v.Str? ==> r == v
      ensures v.Str? && EMssql() ==> r == Str("0x" + Hex(Utf8(v.s)))
      ensures v.Str? && !EMssql() ==> r == Str(AddSlashes(v.s))
    {
      match v
      case Str(s) => if EMssql() then Str("0x" + Hex(Utf8(s))) else Str(AddSlashes(s))
      case _ => v
    }
  }

  // ------------------------------------------------------------- paginacao

  /** A capture group, or "" for one the match does not have (PHP reads null). */
  function Grupo(g: seq<string>, i: int): string
  {
    if 0 <= i < |g| then g[i] else ""
  }

  /** array_search("ORDER BY", grupos). */
  function BuscarOrderBy(g: seq<string>): (r: Option<nat>)
    ensures r.Some? ==> r.value < |g| && g[r.value] == "ORDER BY" && forall i :: 0 <= i < r.value ==> g[i] != "ORDER BY"
    ensures r.None? ==> forall i :: 0 <= i < |g| ==> g[i] != "ORDER BY"
    decreases |g|
  {
    if g == [] then None
    else if g[0] == "ORDER BY" then Some(0)
    else match BuscarOrderBy(g[1..])
      case Some(k) => Some(k + 1)
      case None => assert forall i :: 1 <= i < |g| ==> g[i] == g[1..][i - 1]; None
  }

  /** unset($g[k], $g[k + 1]). */
  function SemPar(g: seq<string>, k: nat): (r: seq<string>)
    requires k < |g|
    ensures |r| == if k + 1 < |g| then |g| - 2 else k
    ensures forall i :: 0 <= i < k ==> r[i] == g[i]
    ensures forall i :: k <= i < |r| ==> r[i] == g[i + 2]
  {
    if k + 1 < |g| then g[..k] + g[k + 2..] else g[..k]
  }

  /** The first and last row numbers of the MSSQL window: the offset plus one, and the last row of the page. */
  function JanelaMssql(pgn: int, qtde: int): (int, int)
  {
    var inicio := (if pgn == 1 then 0 else (pgn - 1) * qtde) + 1;
    (inicio, if inicio == 1 then qtde else pgn * qtde)
  }

  /** The numbered query: rows numbered by the ORDER BY expression, or by the field list when there is none. */
  function ConsultaNumerada(g: seq<string>): string
  {
    var k := BuscarOrderBy(g);
    var order := match k case None => Grupo(g, 2) case Some(i) => Grupo(g, i + 1);
    var resto := match k case None => g case Some(i) => SemPar(g, i);
    var clausulas := Join(if |resto| >= 2 then resto[2..] else [], " ");
    Grupo(g, 1) + " ROW_NUMBER() OVER (ORDER BY " + Trim(order, WHITESPACE) + ") AS MSSQL_LINHA, " + clausulas
  }

  /** The MSSQL rewrite: the numbered query in a CTE, of which the window is kept. */
  function PaginacaoMssql(g: seq<string>, pgn: int, qtde: int): string
  {
    var w := JanelaMssql(pgn, qtde);
    "WITH paginacao AS (" + ConsultaNumerada(g) + ") SELECT * FROM paginacao WHERE MSSQL_LINHA " + Entre(w.0, w.1)
  }

  /** The SQL range condition for rows lo to hi inclusive. */
  function Entre(lo: int, hi: int): string
  {
    "BETWEEN " + IntText(lo) + " AND " + IntText(hi)
  }

  /** The MSSQL window is rows (pgn-1)*qtde+1 ..= pgn*qtde: exactly qtde rows, page 1 starting at row 1. */
  lemma JanelaMssqlSpec(pgn: int, qtde: int)
    requires qtde > 0
    ensures JanelaMssql(pgn, qtde) == ((pgn - 1) * qtde + 1, pgn * qtde)
    ensures JanelaMssql(pgn, qtde).1 - JanelaMssql(pgn, qtde).0 + 1 == qtde
    ensures pgn == 1 ==> JanelaMssql(pgn, qtde).0 == 1
  {
    if pgn > 1 {
      MultPositivo(pgn - 1, qtde);
    } else if pgn < 1 {
      MultPositivo(1 - pgn, qtde);
    }
  }

  lemma MultPositivo(a: int, b: int)
    requires a > 0 && b > 0
    ensures a * b > 0
  {
  }

  /** Without a positive page size the query is returned as it is. */
  lemma PaginacaoSemQtde(db: PDODL, query: string, pgn: int, qtde: int, grupos: seq<string>)
    requires qtde <= 0
    ensures db.Paginacao(query, pgn, qtde, grupos) == query
  {
  }

  /** On MySQL a query without a LIMIT clause gets one: offset (pgn - 1) * qtde, qtde rows. */
  lemma PaginacaoLimit(db: PDODL, query: string, pgn: int, qtde: int, grupos: seq<string>)
    requires qtde > 0 && !db.EMssql()
    requires forall i :: !PalavraLimit(query, i)
    ensures db.Paginacao(query, pgn, qtde, grupos) == query + " LIMIT " + IntText((pgn - 1) * qtde) + "," + IntText(qtde)
  {
    RemoverLimitSem(query);
  }

  /** On MSSQL the page is rows (pgn - 1) * qtde + 1 to pgn * qtde of the numbered query. */
  lemma PaginacaoJanela(db: PDODL, query: string, pgn: int, qtde: int, grupos: seq<string>)
    requires qtde > 0 && db.EMssql()
    ensures EndsWith(db.Paginacao(query, pgn, qtde, grupos), Entre((pgn - 1) * qtde + 1, pgn * qtde))
  {
    JanelaMssqlSpec(pgn, qtde);
    var a := "WITH paginacao AS (" + ConsultaNumerada(grupos) + ") SELECT * FROM paginacao WHERE MSSQL_LINHA ";
    var b := Entre((pgn - 1) * qtde + 1, pgn * qtde);
    var r := db.Paginacao(query, pgn, qtde, grupos);
    assert r == a + b;
    assert r[|r| - |b|..] == b;
  }

  /** [\d\w,], the characters of a LIMIT argument. */
  predicate IsLimitChar(c: char)
  {
    IsWordChar(c) || c == ','
  }

  /** The word "limit", in any case, at the start of s. */
  predicate IniciaLimit(s: string)
  {
    |s| >= 5 && LowerChar(s[0]) == 'l' && LowerChar(s[1]) == 'i' && LowerChar(s[2]) == 'm' &&
    LowerChar(s[3]) == 'i' && LowerChar(s[4]) == 't'
  }

  /** The length of the run of \s characters at the start of s. */
  function EspacosLen(s: string): (n: nat)
    ensures n <= |s|
    decreases |s|
  {
    if s != [] && IsPcreSpace(s[0]) then 1 + EspacosLen(s[1..]) else 0
  }

  /** The length of the run of [\d\w,] characters at the start of s. */
  function LimitCharsLen(s: string): (n: nat)
    ensures n <= |s|
    decreases |s|
  {
    if s != [] && IsLimitChar(s[0]) then 1 + LimitCharsLen(s[1..]) else 0
  }

  /** The length of a `LIMIT\s+[\d\w,]+` match (case-insensitive) at the start of s. */
  function LimitEm(s: string): (r: Option<nat>)
    ensures r.Some? ==> 6 < r.value <= |s|
  {
    if IniciaLimit(s) then
      var b := EspacosLen(s[5..]);
      if b > 0 && 5 + b < |s| && IsLimitChar(s[5 + b]) then
        Some(5 + b + LimitCharsLen(s[5 + b..]))
      else None
    else None
  }

  /** preg_replace('~LIMIT\s+[\d\w,]+~i', '', s): every match, left to right, is removed. */
  function RemoverLimit(s: string): (r: string)
    ensures |r| <= |s|
    decreases |s|
  {
    if s == [] then []
    else match LimitEm(s)
      case Some(n) => RemoverLimit(s[n..])
      case None => [s[0]] + RemoverLimit(s[1..])
  }

  /** The word "limit", in any case, at index i of s. */
  predicate PalavraLimit(s: string, i: int)
  {
    0 <= i && i + 5 <= |s| && IniciaLimit(s[i..])
  }

  /** A query that never spells "limit" (in any case) is left as it is. */
  lemma {:induction false} RemoverLimitSem(s: string)
    requires forall i :: !PalavraLimit(s, i)
    ensures RemoverLimit(s) == s
    decreases |s|
  {
    if s != [] {
      assert LimitEm(s).None? by {
        assert s[0..] == s;
        assert !PalavraLimit(s, 0);
      }
      forall i
        ensures !PalavraLimit(s[1..], i)
      {
        if 0 <= i && i + 5 <= |s[1..]| {
          assert s[1..][i..] == s[i + 1..];
          assert !PalavraLimit(s, i + 1);
        }
      }
      RemoverLimitSem(s[1..]);
      assert s == [s[0]] + s[1..];
    }
  }

  /** A LIMIT clause starts at index i of s. */
  predicate LimitEmIndice(s: string, i: int)
  {
    0 <= i <= |s| && LimitEm(s[i..]).Some?
  }

  /** Removal works match by match: a removed LIMIT clause leaves what precedes it and what follows it. */
  lemma {:induction false} RemoverLimitConcat(x: string, y: string)
    requires forall i :: 0 <= i < |x| ==> !LimitEmIndice(x + y, i)
    ensures RemoverLimit(x + y) == x + RemoverLimit(y)
    decreases |x|
  {
    if x != [] {
      SemLimitCauda(x, y);
      RemoverLimitPasso(x, y);
      RemoverLimitConcat(x[1..], y);
      ConsConcat(x, RemoverLimit(y));
    } else {
      assert x + y == y;
    }
  }

  lemma SemLimitCauda(x: string, y: string)
    requires x != [] && forall i :: 0 <= i < |x| ==> !LimitEmIndice(x + y, i)
    ensures LimitEm(x + y).None?
    ensures forall i :: 0 <= i < |x[1..]| ==> !LimitEmIndice(x[1..] + y, i)
  {
    var s := x + y;
    var t := x[1..] + y;
    assert !LimitEmIndice(s, 0);
    assert s[0..] == s;
    forall i | 0 <= i < |x[1..]|
      ensures !LimitEmIndice(t, i)
    {
      assert !LimitEmIndice(s, i + 1);
      assert s[i + 1..] == t[i..];
    }
  }

  /** Where no LIMIT clause starts, the first character is kept. */
  lemma RemoverLimitPasso(x: string, y: string)
    requires x != [] && LimitEm(x + y).None?
    ensures RemoverLimit(x + y) == [x[0]] + RemoverLimit(x[1..] + y)
  {
    assert (x + y)[1..] == x[1..] + y;
  }

  // --------------------------------------------------------- incluirEscape

  function HexDigit(n: int): char
    requires 0 <= n < 16
  {
    "0123456789abcdef"[n]
  }

  /** unpack('H*') on a byte string: two lower-case hexadecimal digits per byte, high nibble first. */
  function Hex(s: string): (r: string)
    requires Bytes(s)
    ensures |r| == 2 * |s|
    decreases |s|
  {
    if s == [] then []
    else
      var b := s[0] as int;
      [HexDigit(b / 16), HexDigit(b % 16)] + Hex(s[1..])
  }

  function HexValue(c: char): int
  {
    if '0' <= c <= '9' then c as int - '0' as int
    else if 'a' <= c <= 'f' then c as int - 'a' as int + 10
    else 0
  }

  /** Reading the hexadecimal text back, two digits per byte. */
  function DesfazerHex(h: string): string
    decreases |h|
  {
    if |h| < 2 then []
    else [(HexValue(h[0]) * 16 + HexValue(h[1])) as char] + DesfazerHex(h[2..])
  }

  lemma HexDigitValue(n: int)
    requires 0 <= n < 16
    ensures HexValue(HexDigit(n)) == n
  {
  }

  lemma HexByte(b: int)
    requires 0 <= b < 256
    ensures HexValue(HexDigit(b / 16)) * 16 + HexValue(HexDigit(b % 16)) == b
  {
    HexDigitValue(b / 16);
    HexDigitValue(b % 16);
  }

  /** The hexadecimal text gives back every byte of the input. */
  lemma {:induction false} HexRoundTrip(s: string)
    requires Bytes(s)
    ensures DesfazerHex(Hex(s)) == s
    decreases |s|
  {
    if s != [] {
      var b := s[0] as int;
      HexByte(b);
      var h := Hex(s);
      assert h == [HexDigit(b / 16), HexDigit(b % 16)] + Hex(s[1..]);
      assert h[2..] == Hex(s[1..]);
      HexRoundTrip(s[1..]);
      assert (b as char) == s[0];
      assert s == [s[0]] + s[1..];
    }
  }

  /** A string reaches MSSQL as the hexadecimal of its UTF-8 bytes: one accented letter gives four digits. */
  lemma HexUtf8Exemplo()
    ensures Hex(Utf8("ã")) == "c3a3"
  {
    assert Utf8Char('ã') == [0xC3 as char, 0xA3 as char];
    assert Utf8("ã") == [0xC3 as char, 0xA3 as char];
    assert [0xC3 as char, 0xA3 as char][1..] == [0xA3 as char];
  }

  /** addslashes: a backslash before ', ", \ and NUL, NUL itself written as '0'. */
  function AddSlashes(s: string): (r: string)
    ensures |r| >= |s|
    decreases |s|
  {
    if s == [] then []
    else
      var c := s[0];
      (if c == '\0' then "\\0" else if c == '\'' || c == '"' || c == '\\' then ['\\', c] else [c]) + AddSlashes(s[1..])
  }

  /** stripslashes, the inverse PHP provides. */
  function StripSlashes(s: string): string
    decreases |s|
  {
    if s == [] then []
    else if s[0] == '\\' && |s| >= 2 then [if s[1] == '0' then '\0' else s[1]] + StripSlashes(s[2..])
    else if s[0] == '\\' then []
    else [s[0]] + StripSlashes(s[1..])
  }

  /** stripslashes undoes addslashes. */
  lemma {:induction false} AddSlashesRoundTrip(s: string)
    ensures StripSlashes(AddSlashes(s)) == s
    decreases |s|
  {
    if s != [] {
      var c := s[0];
      var t := AddSlashes(s[1..]);
      AddSlashesRoundTrip(s[1..]);
      var a := AddSlashes(s);
      if c == '\0' || c == '\'' || c == '"' || c == '\\' {
        var e := if c == '\0' then '0' else c;
        assert a == ['\\', e] + t;
        assert a[0] == '\\' && a[1] == e && a[2..] == t;
        assert StripSlashes(a) == [c] + StripSlashes(t);
      } else {
        assert a == [c] + t;
        assert a[0] == c && a[1..] == t;
        assert StripSlashes(a) == [c] + StripSlashes(t);
      }
      assert s == [c] + s[1..];
    }
  }

  /** No quote of the input is left unescaped: each ' in the output follows a backslash. */
  lemma {:induction false} AddSlashesQuotes(s: string, i: int)
    requires 0 <= i < |AddSlashes(s)| && AddSlashes(s)[i] == '\''
    ensures i > 0 && AddSlashes(s)[i - 1] == '\\'
    decreases |s|
  {
    var c := s[0];
    var p := if c == '\0' then "\\0" else if c == '\'' || c == '"' || c == '\\' then ['\\', c] else [c];
    var t := AddSlashes(s[1..]);
    assert AddSlashes(s) == p + t;
    if i >= |p| {
      AddSlashesQuotes(s[1..], i - |p|);
      if i - |p| - 1 >= 0 {
        assert AddSlashes(s)[i - 1] == t[i - |p| - 1];
      }
    }
  }

  // ---------------------------------------------------------- identificaPK

  /** preg_replace("~^prefixo~", '', v) for a literal prefix. */
  function SemPrefixo(v: string, prefixo: string): (r: string)
    ensures StartsWith(v, prefixo) ==> prefixo + r == v
    ensures !StartsWith(v, prefixo) ==> r == v
  {
    if StartsWith(v, prefixo) then
      assert v == v[..|prefixo|] + v[|prefixo|..];
      v[|prefixo|..]
    else v
  }

  /** The primary-key names identificaPK returns: with a prefix, each loses that prefix. */
  function IdentificaPK(campos: seq<string>, prefixo: Option<string>): (r: seq<string>)
    ensures |r| == |campos|
    ensures prefixo.None? ==> r == campos
    ensures prefixo.Some? ==> forall i :: 0 <= i < |r| ==> r[i] == SemPrefixo(campos[i], prefixo.value)
    decreases |campos|
  {
    if campos == [] then []
    else
      var h := match prefixo case Some(p) => SemPrefixo(campos[0], p) case None => campos[0];
      [h] + IdentificaPK(campos[1..], prefixo)
  }
}
