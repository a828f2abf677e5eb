// The pure part of DLX\Ajudantes\ConstrutorSQL (dlx/ajudantes/construtorsql.ajudante.php):
// keyword validation, aliases, literal export, schema filtering, the WHERE-to-PREPARE
// rewrite and the field-list substitution of a SELECT.

module AjdConstrutorSql {
  import opened Wrappers
  import opened Text
  import opened Values
  import opened Assoc

  // ------------------------------------------------------- keyword validation

  /**
   * filter_var(v, FILTER_VALIDATE_REGEXP, '~^(w1|w2|...|)$~i') with a null result on
   * failure, then strtoupper: one of the words (any case), or the empty string,
   * optionally followed by the one newline `$` lets through.
   */
  function ValidarPalavra(v: string, palavras: set<string>): (r: string)
    ensures r == "" || r == Upper(v)
  {
    var corpo := if |v| > 0 && v[|v| - 1] == '\n' then v[..|v| - 1] else v;
    if corpo == "" || Lower(corpo) in palavras then Upper(v) else ""
  }

  /** validarAndOr. */
  function ValidarAndOr(andor: string): string
  {
    ValidarPalavra(andor, {"and", "or"})
  }

  /** validarTipoJoin. */
  function ValidarTipoJoin(tipo: string): string
  {
    ValidarPalavra(tipo, {"inner", "left", "right"})
  }

  /** validarTipoOrdenacao. */
  function ValidarTipoOrdenacao(ordenacao: string): string
  {
    ValidarPalavra(ordenacao, {"asc", "desc"})
  }

  lemma UpperOfLower(v: string)
    ensures Upper(v) == Upper(Lower(v))
  {
    assert forall i :: 0 <= i < |v| ==> UpperChar(v[i]) == UpperChar(LowerChar(v[i]));
  }

  /** Without a newline, the input is accepted exactly when it is empty or one of the words. */
  lemma ValidarPalavraSemNL(v: string, palavras: set<string>)
    requires '\n' !in v
    ensures ValidarPalavra(v, palavras) == if v == "" || Lower(v) in palavras then Upper(v) else ""
  {
    assert v != [] ==> v[|v| - 1] != '\n';
  }

  /** The upper-case spellings of the connectors. */
  lemma MaiusculasAndOr()
    ensures Upper("and") == "AND" && Upper("or") == "OR"
  {
    assert Upper("and") == "AND";
    assert Upper("or") == "OR";
  }

  /** The upper-case spellings of the join types. */
  lemma MaiusculasJoin()
    ensures Upper("inner") == "INNER" && Upper("left") == "LEFT" && Upper("right") == "RIGHT"
  {
    assert Upper("inner") == "INNER";
    assert Upper("left") == "LEFT";
    assert Upper("right") == "RIGHT";
  }

  /** The upper-case spellings of the directions. */
  lemma MaiusculasOrdenacao()
    ensures Upper("asc") == "ASC" && Upper("desc") == "DESC"
  {
    assert Upper("asc") == "ASC";
    assert Upper("desc") == "DESC";
  }

  /**
   * Without a newline, the connector is "AND", "OR" or "", and it is "AND"
   * exactly for "and" in any case and "OR" exactly for "or".
   */
  lemma ValidarAndOrSpec(andor: string)
    requires '\n' !in andor
    ensures ValidarAndOr(andor) in {"AND", "OR", ""}
    ensures ValidarAndOr(andor) == "AND" <==> Lower(andor) == "and"
    ensures ValidarAndOr(andor) == "OR" <==> Lower(andor) == "or"
  {
    ValidarPalavraSemNL(andor, {"and", "or"});
    UpperOfLower(andor);
    MaiusculasAndOr();
    var l := Lower(andor);
    if l in {"and", "or"} {
      if l == "and" {
        assert ValidarAndOr(andor) == "AND";
      } else {
        assert ValidarAndOr(andor) == "OR";
      }
    } else if andor == "" {
      assert ValidarAndOr(andor) == Upper("");
    } else {
      assert ValidarAndOr(andor) == "";
    }
  }

  /** Without a newline, the join type is INNER, LEFT, RIGHT or nothing, and nothing for any other word. */
  lemma ValidarTipoJoinSpec(tipo: string)
    requires '\n' !in tipo
    ensures ValidarTipoJoin(tipo) in {"INNER", "LEFT", "RIGHT", ""}
    ensures Lower(tipo) !in {"inner", "left", "right"} ==> ValidarTipoJoin(tipo) == ""
  {
    ValidarPalavraSemNL(tipo, {"inner", "left", "right"});
    UpperOfLower(tipo);
    MaiusculasJoin();
    var l := Lower(tipo);
    if l in {"inner", "left", "right"} {
      if l == "inner" {
        assert ValidarTipoJoin(tipo) == "INNER";
      } else if l == "left" {
        assert ValidarTipoJoin(tipo) == "LEFT";
      } else {
        assert ValidarTipoJoin(tipo) == "RIGHT";
      }
    } else if tipo == "" {
      assert ValidarTipoJoin(tipo) == Upper("");
    } else {
      assert ValidarTipoJoin(tipo) == "";
    }
  }

  /** Without a newline, the direction is ASC, DESC or nothing, and nothing for any other word. */
  lemma ValidarTipoOrdenacaoSpec(ordenacao: string)
    requires '\n' !in ordenacao
    ensures ValidarTipoOrdenacao(ordenacao) in {"ASC", "DESC", ""}
    ensures Lower(ordenacao) !in {"asc", "desc"} ==> ValidarTipoOrdenacao(ordenacao) == ""
  {
    ValidarPalavraSemNL(ordenacao, {"asc", "desc"});
    UpperOfLower(ordenacao);
    MaiusculasOrdenacao();
    var l := Lower(ordenacao);
    if l in {"asc", "desc"} {
      if l == "asc" {
        assert ValidarTipoOrdenacao(ordenacao) == "ASC";
      } else {
        assert ValidarTipoOrdenacao(ordenacao) == "DESC";
      }
    } else if ordenacao == "" {
      assert ValidarTipoOrdenacao(ordenacao) == Upper("");
    } else {
      assert ValidarTipoOrdenacao(ordenacao) == "";
    }
  }

  // ------------------------------------------------------------ adAlias, varExportBD

  /** adAlias: " AS alias" unless the alias is empty in PHP's sense ("" or "0"). */
  function AdAlias(alias: string): (r: string)
    ensures alias == "" || alias == "0" ==> r == ""
    ensures alias != "" && alias != "0" ==> StartsWith(r, " AS ") && r[4..] == alias
  {
    if alias == "" || alias == "0" then "" else " AS " + alias
  }

  /** The body var_export writes between single quotes: each quote and backslash gets a backslash before it. */
  function EscaparAspas(s: string): (r: string)
    ensures |r| >= |s|
    decreases |s|
  {
    if s == [] then []
    else (if s[0] == '\'' || s[0] == '\\' then ['\\', s[0]] else [s[0]]) + EscaparAspas(s[1..])
  }

  /** var_export of a string. */
  function LiteralTexto(s: string): string
  {
    "'" + EscaparAspas(s) + "'"
  }

  /** Reads a single-quoted body up to its closing quote: the unescaped text and what follows the quote. */
  function LerEscapado(t: string): Option<(string, string)>
    decreases |t|
  {
    if t == [] then None
    else if t[0] == '\'' then Some(([], t[1..]))
    else if t[0] == '\\' && |t| >= 2 && (t[1] == '\'' || t[1] == '\\') then
      match LerEscapado(t[2..])
      case None => None
      case Some(p) => Some(([t[1]] + p.0, p.1))
    else
      match LerEscapado(t[1..])
      case None => None
      case Some(p) => Some(([t[0]] + p.0, p.1))
  }

  /** How PHP reads back a whole single-quoted literal. */
  function LerLiteral(t: string): Option<string>
  {
    if t != [] && t[0] == '\'' then
      match LerEscapado(t[1..])
      case Some(p) => if p.1 == [] then Some(p.0) else None
      case None => None
    else None
  }

  lemma {:induction false} LerEscapadoEscapar(s: string, rest: string)
    ensures LerEscapado(EscaparAspas(s) + "'" + rest) == Some((s, rest))
    decreases |s|
  {
    var t := EscaparAspas(s) + "'" + rest;
    if s == [] {
      assert t == "'" + rest;
      assert t[1..] == rest;
    } else {
      var e := if s[0] == '\'' || s[0] == '\\' then ['\\', s[0]] else [s[0]];
      assert EscaparAspas(s) == e + EscaparAspas(s[1..]);
      LerEscapadoEscapar(s[1..], rest);
      assert t == e + (EscaparAspas(s[1..]) + "'" + rest);
      assert t[|e|..] == EscaparAspas(s[1..]) + "'" + rest;
      assert [s[0]] + s[1..] == s;
    }
  }

  /** The literal var_export writes for a string reads back as that string. */
  lemma LiteralTextoRoundTrip(s: string)
    ensures LerLiteral(LiteralTexto(s)) == Some(s)
  {
    var t := LiteralTexto(s);
    assert t[1..] == EscaparAspas(s) + "'" + "";
    LerEscapadoEscapar(s, "");
  }

  /** varExportBD: var_export of a scalar (floats are not modelled), anything else as it is. */
  function VarExportBD(v: Value): (r: Value)
    ensures !IsScalar(v) ==> r == v
    ensures IsScalar(v) ==> r.Str?
    ensures v.Int? ==> r == Str(IntText(v.i))
  {
    match v
    case Bool(b) => Str(if b then "true" else "false")
    case Int(i) => Str(IntText(i))
    case Str(s) => Str(LiteralTexto(s))
    case _ => v
  }

  /** An exported string is a literal that reads back as the string. */
  lemma VarExportBDTexto(s: string)
    ensures VarExportBD(Str(s)).Str? && LerLiteral(VarExportBD(Str(s)).s) == Some(s)
  {
    LiteralTextoRoundTrip(s);
  }

  // ------------------------------------------------------- filtrarCamposTabela

  /** One row of the table description: its Field and Key columns. */
  datatype Campo = Campo(field: string, key: string)

  predicate IsPk(c: Campo) { c.key == "PRI" }

  /** The array_filter callback: in the include list (when given) and not in the exclude list (when given). */
  predicate Selecionado(c: Campo, incluir: seq<string>, excluir: seq<string>)
  {
    (incluir == [] || c.field in incluir) && (excluir == [] || c.field !in excluir)
  }

  /** filtrarCamposTabela over the table description, in its order. */
  function FiltrarCamposTabela(campos: seq<Campo>, incluir: seq<string>, excluir: seq<string>): (r: seq<Campo>)
    ensures forall c :: c in r <==> c in campos && Selecionado(c, incluir, excluir)
    ensures |r| <= |campos|
    decreases |campos|
  {
    if campos == [] then []
    else
      var resto := FiltrarCamposTabela(campos[1..], incluir, excluir);
      if Selecionado(campos[0], incluir, excluir) then [campos[0]] + resto else resto
  }

  /** Filtering the filtered description changes nothing. */
  lemma {:induction false} FiltrarIdempotente(campos: seq<Campo>, incluir: seq<string>, excluir: seq<string>)
    ensures FiltrarCamposTabela(FiltrarCamposTabela(campos, incluir, excluir), incluir, excluir) ==
      FiltrarCamposTabela(campos, incluir, excluir)
    decreases |campos|
  {
    if campos != [] {
      FiltrarIdempotente(campos[1..], incluir, excluir);
      var r := FiltrarCamposTabela(campos, incluir, excluir);
      if Selecionado(campos[0], incluir, excluir) {
        assert r[1..] == FiltrarCamposTabela(campos[1..], incluir, excluir);
      }
    }
  }

  /** tabelaExiste: the database's answer for the table is given; a missing table throws 1404 naming it. */
  function TabelaExiste(existe: bool, tabela: string): (r: Outcome<()>)
    ensures r.Ok? <==> existe
    ensures r.Throw? ==> r.code == NOT_FOUND && StartsWith(r.message, "A tabela <b>" + tabela + "</b>")
  {
    if existe then Ok(())
    else
      var nome := "A tabela <b>" + tabela + "</b>";
      var m := nome + " não foi encontrada na base de dados.";
      assert m[..|nome|] == nome;
      Throw(NOT_FOUND, m)
  }

  /**
   * campoExiste: the description of the table narrowed to the field (what infoCampos
   * answers when given a field) must not be empty(); otherwise 1404 naming the field.
   */
  function CampoExiste(campos: seq<Campo>, campo: string, tabela: string): (r: Outcome<()>)
    ensures r.Ok? <==> exists c :: c in campos && c.field == campo
    ensures r.Throw? ==> r.code == NOT_FOUND && StartsWith(r.message, "O campo <b>" + campo + "</b>")
  {
    var achados := FiltrarCamposTabela(campos, [campo], []);
    if achados != [] then
      assert achados[0] in achados;
      Ok(())
    else
      var nome := "O campo <b>" + campo + "</b>";
      var m := nome + " não foi localizado dentro da tabela <b>" + tabela + "</b> no banco de dados.";
      assert m[..|nome|] == nome;
      Throw(NOT_FOUND, m)
  }

  // ---------------------------------------------------------- clausula2Prepare

  /** `[a-z\_]` under the `i` flag. */
  predicate IsCampoChar(c: char) { IsAsciiLetter(c) || c == '_' }

  /** PCRE's `\s`. */
  predicate IsBranco(c: char)
  {
    c == ' ' || c == '\t' || c == '\n' || c == '\r' || c == 12 as char || c == 11 as char
  }

  /** The length of the `\s*` run at the start of t. */
  function Brancos(t: string): (n: nat)
    ensures n <= |t|
    decreases |t|
  {
    if t != [] && IsBranco(t[0]) then 1 + Brancos(t[1..]) else 0
  }

  /** The length of the `[a-z\_]+` run at the start of s. */
  function CampoLen(s: string): (n: nat)
    ensures n <= |s|
    decreases |s|
  {
    if s != [] && IsCampoChar(s[0]) then 1 + CampoLen(s[1..]) else 0
  }

  /** The length of the run of characters other than a newline (what `.` matches) at the start of t. */
  function LinhaLen(t: string): (n: nat)
    ensures n <= |t|
    decreases |t|
  {
    if t != [] && t[0] != '\n' then 1 + LinhaLen(t[1..]) else 0
  }

  /** The length of the `\d+` run at the start of t. */
  function DigitosLen(t: string): (n: nat)
    ensures n <= |t|
    decreases |t|
  {
    if t != [] && IsDigit(t[0]) then 1 + DigitosLen(t[1..]) else 0
  }

  /** The operator alternatives, in the order the pattern tries them. */
  const OPERADORES: seq<string> := ["=", "LIKE", "<>", ">", "<", "<=", ">="]

  /** op at the start of t, in any case. */
  predicate OpAt(t: string, op: string)
    ensures OpAt(t, op) ==> |op| <= |t|
    decreases |op|
  {
    op == [] || (t != [] && LowerChar(t[0]) == LowerChar(op[0]) && OpAt(t[1..], op[1..]))
  }

  /** OpAt compares the first |op| characters of t with op, each in lower case. */
  lemma {:induction false} OpAtChars(t: string, op: string)
    ensures OpAt(t, op) <==> |op| <= |t| && forall i :: 0 <= i < |op| ==> LowerChar(t[i]) == LowerChar(op[i])
    decreases |op|
  {
    if op != [] && t != [] {
      OpAtChars(t[1..], op[1..]);
      assert forall i :: 1 <= i < |op| && i < |t| ==> t[1..][i - 1] == t[i] && op[1..][i - 1] == op[i];
    }
  }

  /** The last quote in t[a..e]. */
  function UltimaAspa(t: string, a: nat, e: nat): (r: Option<nat>)
    requires e <= |t|
    ensures r.Some? ==> a <= r.value < e
    decreases e
  {
    if e <= a then None
    else if t[e - 1] == '\'' then Some(e - 1)
    else UltimaAspa(t, a, e - 1)
  }

  /** The first quote in t[a..e]. */
  function PrimeiraAspa(t: string, a: nat, e: nat): (r: Option<nat>)
    requires e <= |t|
    ensures r.Some? ==> a <= r.value < e
    decreases e - a
  {
    if e <= a then None
    else if t[a] == '\'' then Some(a)
    else PrimeiraAspa(t, a + 1, e)
  }

  /**
   * The length of the value `'.+'|\d+` at the start of t: a quote, at least one
   * character of the same line and a closing quote (the last one of the line
   * when greedy, the first one otherwise), or a run of digits.
   */
  function ValorLen(t: string, guloso: bool): (r: Option<nat>)
    ensures r.Some? ==> 0 < r.value <= |t|
  {
    if t != [] && t[0] == '\'' then
      var linha := 1 + LinhaLen(t[1..]);
      var fim := if guloso then UltimaAspa(t, 2, linha) else PrimeiraAspa(t, 2, linha);
      if fim.Some? then Some(fim.value + 1) else None
    else if t != [] && IsDigit(t[0]) then Some(DigitosLen(t))
    else None
  }

  /** What follows a field: the operator, the value and the length of `\s*op\s*value`. */
  datatype Resto = Resto(op: string, valor: string, len: nat)

  /** `\s*op\s*value` at the start of t, for one operator; the match keeps the operator text as spelled in t. */
  function TentarOp(t: string, op: string, guloso: bool): (r: Option<Resto>)
    ensures r.Some? ==> 0 < r.value.len <= |t|
  {
    var b := Brancos(t);
    if OpAt(t[b..], op) then ValorApos(t, b, op, guloso) else None
  }

  /** The blanks and the value after the operator text t[b..b + |op|]. */
  function ValorApos(t: string, b: nat, op: string, guloso: bool): (r: Option<Resto>)
    requires b + |op| <= |t|
    ensures r.Some? ==> 0 < r.value.len <= |t|
  {
    var u := t[b + |op|..];
    var b2 := Brancos(u);
    match ValorLen(u[b2..], guloso)
    case Some(n) => Some(Resto(t[b..b + |op|], u[b2..b2 + n], b + |op| + b2 + n))
    case None => None
  }

  /** The first operator, from the k-th on, after which a value follows. */
  function TentarOps(t: string, k: nat, guloso: bool): (r: Option<Resto>)
    ensures r.Some? ==> 0 < r.value.len <= |t|
    decreases |OPERADORES| - k
  {
    if k >= |OPERADORES| then None
    else
      match TentarOp(t, OPERADORES[k], guloso)
      case Some(p) => Some(p)
      case None => TentarOps(t, k + 1, guloso)
  }

  /** One match of the pattern: the field, the operator, the value and where the match ends. */
  datatype Casamento = Casamento(campo: string, op: string, valor: string, fim: nat)

  /** The field as the first q characters of s, then shorter ones (the backtracking of `[a-z\_]+`). */
  function CasarCampo(s: string, q: nat, guloso: bool): (r: Option<Casamento>)
    requires q <= |s|
    ensures r.Some? ==> 0 < r.value.fim <= |s|
    decreases q
  {
    if q == 0 then None
    else
      match TentarOps(s[q..], 0, guloso)
      case Some(p) => Some(Casamento(s[..q], p.op, p.valor, q + p.len))
      case None => CasarCampo(s, q - 1, guloso)
  }

  /** A match starting at the first character of s. */
  function CasarInicio(s: string, guloso: bool): (r: Option<Casamento>)
    ensures r.Some? ==> 0 < r.value.fim <= |s|
  {
    CasarCampo(s, CampoLen(s), guloso)
  }

  /**
   * preg_replace and preg_match_all together, scanning left to right: each
   * match becomes `campo op :PREFIXOcampo`, the text between matches is
   * copied, and the (field, value) pairs are listed in order.
   */
  function Reescrever(s: string, prefixo: string, guloso: bool): (r: (string, seq<(string, string)>))
    ensures |r.1| <= |s|
    decreases |s|
  {
    if s == [] then ([], [])
    else
      match CasarInicio(s, guloso)
      case Some(m) =>
        var t := Reescrever(s[m.fim..], prefixo, guloso);
        (m.campo + " " + m.op + " :" + prefixo + m.campo + t.0, [(m.campo, m.valor)] + t.1)
      case None =>
        var t := Reescrever(s[1..], prefixo, guloso);
        ([s[0]] + t.0, t.1)
  }

  /** preg_replace(['~^\'~', '~\'$~'], '', v): `$` also stands before a final newline. */
  function SemAspas(v: string): string
  {
    var a := if v != [] && v[0] == '\'' then v[1..] else v;
    if a != [] && a[|a| - 1] == '\'' then a[..|a| - 1]
    else if |a| >= 2 && a[|a| - 2] == '\'' && a[|a| - 1] == '\n' then a[..|a| - 2] + "\n"
    else a
  }

  /** array_combine of the placeholder names and the unquoted values: a repeated name keeps its place and takes the later value. */
  function Valores(pares: seq<(string, string)>, prefixo: string, acc: seq<(string, string)>): seq<(string, string)>
    decreases |pares|
  {
    if pares == [] then acc
    else Valores(pares[1..], prefixo, Put(acc, ":" + prefixo + pares[0].0, SemAspas(pares[0].1)))
  }

  /** clausula2Prepare's result: the rewritten clause and the placeholder values. */
  datatype Preparo = Preparo(prepare: string, valores: seq<(string, string)>)

  function Clausula2PrepareCom(clausula: string, prefixo: string, guloso: bool): Preparo
  {
    var r := Reescrever(clausula, prefixo, guloso);
    Preparo(r.0, Valores(r.1, prefixo, []))
  }

  /** clausula2Prepare as written: the quoted value `'.+'` is greedy. */
  function Clausula2Prepare(clausula: string, prefixo: string): Preparo
  {
    Clausula2PrepareCom(clausula, prefixo, true)
  }

  /** clausula2Prepare with the lazy value `'.+?'`, which closes each literal at its own quote. */
  function Clausula2PrepareCorrigido(clausula: string, prefixo: string): Preparo
  {
    Clausula2PrepareCom(clausula, prefixo, false)
  }

  /** A field name the pattern matches whole: one or more of `[a-z\_]`. */
  predicate CampoValido(f: string)
  {
    |f| > 0 && forall i :: 0 <= i < |f| ==> IsCampoChar(f[i])
  }

  lemma {:induction false} CampoLenExato(f: string, rest: string)
    requires CampoValido(f) && (rest == [] || !IsCampoChar(rest[0]))
    ensures CampoLen(f + rest) == |f|
    decreases |f|
  {
    if |f| > 1 {
      assert (f + rest)[1..] == f[1..] + rest;
      CampoLenExato(f[1..], rest);
    } else {
      assert (f + rest)[1..] == rest;
    }
  }

  lemma {:induction false} LinhaLenAspa(v: string, rest: string)
    requires forall i :: 0 <= i < |v| ==> v[i] != '\n'
    ensures LinhaLen(v + "'" + rest) >= |v| + 1
    decreases |v|
  {
    if v != [] {
      assert (v + "'" + rest)[1..] == v[1..] + "'" + rest;
      LinhaLenAspa(v[1..], rest);
    } else {
      assert (v + "'" + rest)[0] == '\'';
    }
  }

  lemma {:induction false} PrimeiraAspaEm(t: string, a: nat, e: nat, j: nat)
    requires a <= j < e <= |t| && t[j] == '\'' && forall i :: a <= i < j ==> t[i] != '\''
    ensures PrimeiraAspa(t, a, e) == Some(j)
    decreases j - a
  {
    if a < j {
      PrimeiraAspaEm(t, a + 1, e, j);
    }
  }

  /** A literal 'v' whose body holds no quote and no newline is closed by its own quote. */
  lemma ValorLenAspas(v: string, rest: string)
    requires |v| > 0 && forall i :: 0 <= i < |v| ==> v[i] != '\'' && v[i] != '\n'
    ensures ValorLen("'" + v + "'" + rest, false) == Some(|v| + 2)
  {
    var t := "'" + v + "'" + rest;
    assert t[1..] == v + "'" + rest;
    LinhaLenAspa(v, rest);
    var linha := 1 + LinhaLen(t[1..]);
    assert forall i :: 2 <= i < |v| + 1 ==> t[i] == v[i - 1];
    PrimeiraAspaEm(t, 2, linha, |v| + 1);
  }

  /** The greedy literal runs to the last quote of the line. */
  lemma ValorLenGuloso(body: string)
    requires |body| > 0 && forall i :: 0 <= i < |body| ==> body[i] != '\n'
    ensures ValorLen("'" + body + "'", true) == Some(|body| + 2)
  {
    var t := "'" + body + "'";
    assert t[1..] == body + "'" + "";
    LinhaLenAspa(body, "");
    assert LinhaLen(t[1..]) == |body| + 1;
  }

  lemma BrancosUm(t: string)
    requires t != [] && !IsBranco(t[0])
    ensures Brancos(" " + t) == 1
  {
    assert (" " + t)[1..] == t;
  }

  // ------------------------------------------------ the operators of a condition

  /**
   * An operator as a condition may spell it: one of the alternatives, with
   * LIKE in any case (the pattern has the `i` flag).
   */
  predicate OperadorValido(op: string)
  {
    op in {"=", "<>", ">", "<", "<=", ">="} || (|op| == 4 && OpAt(op, "LIKE"))
  }

  /** A character that ends a field, starts no blank run and starts no value. */
  predicate Separa(c: char)
  {
    !IsBranco(c) && c != '\'' && !IsDigit(c)
  }

  lemma CampoSepara(c: char)
    requires IsCampoChar(c)
    ensures Separa(c)
  {
  }

  /** Every operator spelling starts with a character that separates. */
  lemma OperadorInicio(op: string)
    requires OperadorValido(op)
    ensures op != [] && Separa(op[0])
  {
    if |op| == 4 && OpAt(op, "LIKE") {
      assert LowerChar(op[0]) == 'l';
    }
  }

  lemma {:induction false} OpAtSi(o: string)
    ensures OpAt(o, o)
    decreases |o|
  {
    if o != [] {
      OpAtSi(o[1..]);
    }
  }

  /** What follows the operator text does not matter. */
  lemma {:induction false} OpAtPrefixo(op: string, r: string, o: string)
    requires OpAt(op, o)
    ensures OpAt(op + r, o)
    decreases |o|
  {
    if o != [] {
      assert (op + r)[0] == op[0] && (op + r)[1..] == op[1..] + r;
      OpAtPrefixo(op[1..], r, o[1..]);
    }
  }

  /** One differing character, in lower case, rules the operator out. */
  lemma OpDifere(y: string, o: string, i: nat)
    requires i < |o| && i < |y| && LowerChar(y[i]) != LowerChar(o[i])
    ensures !OpAt(y, o)
  {
    OpAtChars(y, o);
  }

  /** How ` op ` splits before a literal L. */
  lemma OperadorPartes(op: string, L: string)
    requires op != [] && Separa(op[0]) && L != [] && L[0] == '\''
    ensures var x := " " + op + " " + L;
      Brancos(x) == 1 && x[1..] == op + " " + L && x[1 + |op|..] == " " + L &&
      Brancos(" " + L) == 1 && (" " + L)[1..] == L && x[1..1 + |op|] == op
  {
    var x := " " + op + " " + L;
    assert x == " " + (op + " " + L);
    BrancosUm(op + " " + L);
    BrancosUm(L);
  }

  /** TentarOp where the operator and a value match, in terms of the pieces of the match. */
  lemma TentarOpCasa(t: string, op: string, guloso: bool, b: nat, u: string, b2: nat, n: nat)
    requires b == Brancos(t) && OpAt(t[b..], op) && u == t[b + |op|..] && b2 == Brancos(u)
    requires ValorLen(u[b2..], guloso) == Some(n)
    ensures TentarOp(t, op, guloso) == Some(Resto(t[b..b + |op|], u[b2..b2 + n], b + |op| + b2 + n))
  {
    assert TentarOp(t, op, guloso) == ValorApos(t, b, op, guloso);
    ValorAposCasa(t, op, guloso, b, u, b2, n);
  }

  lemma ValorAposCasa(t: string, op: string, guloso: bool, b: nat, u: string, b2: nat, n: nat)
    requires b + |op| <= |t| && u == t[b + |op|..] && b2 == Brancos(u)
    requires ValorLen(u[b2..], guloso) == Some(n)
    ensures ValorApos(t, b, op, guloso) == Some(Resto(t[b..b + |op|], u[b2..b2 + n], b + |op| + b2 + n))
  {
  }

  /** TentarOp where the operator does not match. */
  lemma TentarOpSemOp(t: string, op: string, guloso: bool, b: nat)
    requires b == Brancos(t) && !OpAt(t[b..], op)
    ensures TentarOp(t, op, guloso).None?
  {
  }

  /** TentarOp where the operator matches but no value follows it. */
  lemma TentarOpSemResto(t: string, op: string, guloso: bool, b: nat, u: string, b2: nat)
    requires b == Brancos(t) && OpAt(t[b..], op) && u == t[b + |op|..] && b2 == Brancos(u)
    requires ValorLen(u[b2..], guloso).None?
    ensures TentarOp(t, op, guloso).None?
  {
    assert TentarOp(t, op, guloso) == ValorApos(t, b, op, guloso);
  }

  /** The operator o, spelled op, matches, and the literal after it is the value. */
  lemma OpAtPartes(op: string, L: string, o: string)
    requires OpAt(op, o)
    ensures OpAt(op + " " + L, o)
  {
    assert op + " " + L == op + (" " + L);
    OpAtPrefixo(op, " " + L, o);
  }

  lemma CortaLiteral(L: string, n: nat)
    requires n <= |L|
    ensures (" " + L)[1..1 + n] == L[..n]
  {
  }

  lemma OpCasa(op: string, o: string, L: string, n: nat, guloso: bool)
    requires op != [] && Separa(op[0]) && OpAt(op, o) && |op| == |o|
    requires L != [] && L[0] == '\'' && ValorLen(L, guloso) == Some(n)
    ensures TentarOp(" " + op + " " + L, o, guloso) == Some(Resto(op, L[..n], |op| + 2 + n))
  {
    var x := " " + op + " " + L;
    assert Brancos(x) == 1 && OpAt(x[1..], o) && x[1 + |o|..] == " " + L && Brancos(" " + L) == 1 by {
      OperadorPartes(op, L);
      OpAtPartes(op, L, o);
    }
    assert x[1..1 + |o|] == op && (" " + L)[1..1 + n] == L[..n] by {
      OperadorPartes(op, L);
      CortaLiteral(L, n);
    }
    TentarOpCasa(x, o, guloso, 1, " " + L, 1, n);
  }

  /** The operator o matches no spelling at the start of x[1..]. */
  lemma OpRecusa(x: string, o: string, guloso: bool)
    requires Brancos(x) == 1 && !OpAt(x[1..], o)
    ensures TentarOp(x, o, guloso).None?
  {
    TentarOpSemOp(x, o, guloso, 1);
  }

  /** The operator o matches, but '=' follows it where the value should be. */
  lemma OpSemValor(x: string, o: string, guloso: bool)
    requires Brancos(x) == 1 && OpAt(x[1..], o) && 1 + |o| < |x| && x[1 + |o|] == '='
    ensures TentarOp(x, o, guloso).None?
  {
    var u := x[1 + |o|..];
    assert u[0] == '=';
    assert Brancos(u) == 0;
    assert u[0..] == u;
    TentarOpSemResto(x, o, guloso, 1, u, 0);
  }

  lemma TentarOpsPula(x: string, k: nat, guloso: bool)
    requires k < |OPERADORES| && TentarOp(x, OPERADORES[k], guloso).None?
    ensures TentarOps(x, k, guloso) == TentarOps(x, k + 1, guloso)
  {
  }

  lemma TentarOpsAcha(x: string, k: nat, guloso: bool, p: Resto)
    requires k < |OPERADORES| && TentarOp(x, OPERADORES[k], guloso) == Some(p)
    ensures TentarOps(x, k, guloso) == Some(p)
  {
  }

  /** The operators before index k all fail on x, so the search starts at k. */
  lemma {:induction false} TentarOpsAte(x: string, j: nat, k: nat, guloso: bool)
    requires j <= k <= |OPERADORES|
    requires forall i :: j <= i < k ==> TentarOp(x, OPERADORES[i], guloso).None?
    ensures TentarOps(x, j, guloso) == TentarOps(x, k, guloso)
    decreases k - j
  {
    if j < k {
      TentarOpsPula(x, j, guloso);
      TentarOpsAte(x, j + 1, k, guloso);
    }
  }

  /** The index at which the pattern's alternation accepts a spelling. */
  function IndiceOperador(op: string): (k: nat)
    requires OperadorValido(op)
    ensures k < |OPERADORES| && |op| == |OPERADORES[k]|
  {
    if op == "=" then 0
    else if op == "<>" then 2
    else if op == ">" then 3
    else if op == "<" then 4
    else if op == "<=" then 5
    else if op == ">=" then 6
    else 1
  }

  /** Every operator before the spelling's own fails on ` op L`. */
  lemma AntesFalham(op: string, L: string, guloso: bool)
    requires OperadorValido(op) && L != [] && L[0] == '\''
    ensures var x := " " + op + " " + L;
      forall i :: 0 <= i < IndiceOperador(op) ==> TentarOp(x, OPERADORES[i], guloso).None?
  {
    var x := " " + op + " " + L;
    OperadorInicio(op);
    OperadorPartes(op, L);
    var y := x[1..];
    assert y[0] == op[0];
    assert |op| >= 2 ==> y[1] == op[1];
    assert |op| == 1 ==> y[1] == ' ';
    var k := IndiceOperador(op);
    forall i | 0 <= i < k ensures TentarOp(x, OPERADORES[i], guloso).None? {
      var o := OPERADORES[i];
      if (op == "<=" && i == 4) || (op == ">=" && i == 3) {
        assert OpAt(y, o) by { OpAtChars(y, o); }
        assert x[1 + |o|] == '=';
        OpSemValor(x, o, guloso);
      } else {
        if op == "<" && i == 2 {
          OpDifere(y, o, 1);
        } else if op == "<=" && i == 2 {
          OpDifere(y, o, 1);
        } else {
          if |op| == 4 {
            assert LowerChar(y[0]) == 'l';
          }
          OpDifere(y, o, 0);
        }
        OpRecusa(x, o, guloso);
      }
    }
  }

  /** The spelling matches the alternative at its index. */
  lemma OperadorCasaIndice(op: string)
    requires OperadorValido(op)
    ensures OpAt(op, OPERADORES[IndiceOperador(op)])
  {
    if op in {"=", "<>", ">", "<", "<=", ">="} {
      OpAtSi(op);
    }
  }

  /** ` op ` followed by a literal L of length n: the spelling op and that literal. */
  lemma TentarOpsOperador(op: string, L: string, n: nat, guloso: bool)
    requires OperadorValido(op) && L != [] && L[0] == '\'' && ValorLen(L, guloso) == Some(n)
    ensures TentarOps(" " + op + " " + L, 0, guloso) == Some(Resto(op, L[..n], |op| + 2 + n))
  {
    var x := " " + op + " " + L;
    var k := IndiceOperador(op);
    OperadorInicio(op);
    OperadorCasaIndice(op);
    AntesFalham(op, L, guloso);
    OpCasa(op, OPERADORES[k], L, n, guloso);
    TentarOpsDe(x, k, guloso, Resto(op, L[..n], |op| + 2 + n));
  }

  /** The first alternative that matches decides the search. */
  lemma TentarOpsDe(x: string, k: nat, guloso: bool, p: Resto)
    requires k < |OPERADORES| && TentarOp(x, OPERADORES[k], guloso) == Some(p)
    requires forall i :: 0 <= i < k ==> TentarOp(x, OPERADORES[i], guloso).None?
    ensures TentarOps(x, 0, guloso) == Some(p)
  {
    TentarOpsAte(x, 0, k, guloso);
    TentarOpsAcha(x, k, guloso, p);
  }

  // -------------------------------------------------------- matching a condition

  /** When the operators match right after the whole field run, the field keeps all of it. */
  lemma CasarInicioCampo(s: string, q: nat, p: Resto, guloso: bool)
    requires 0 < q <= |s| && CampoLen(s) == q
    requires TentarOps(s[q..], 0, guloso) == Some(p)
    ensures CasarInicio(s, guloso) == Some(Casamento(s[..q], p.op, p.valor, q + p.len))
  {
    assert CasarInicio(s, guloso) == CasarCampo(s, q, guloso);
    CasarCampoPrimeiro(s, q, p, guloso);
  }

  lemma {:induction false} CasarCampoPrimeiro(s: string, q: nat, p: Resto, guloso: bool)
    requires 0 < q <= |s|
    requires TentarOps(s[q..], 0, guloso) == Some(p)
    ensures CasarCampo(s, q, guloso) == Some(Casamento(s[..q], p.op, p.valor, q + p.len))
  {
  }

  lemma ValorLenCondicao(v: string, rest: string, guloso: bool)
    requires |v| > 0 && forall i :: 0 <= i < |v| ==> v[i] != '\n'
    requires guloso ==> rest == []
    requires !guloso ==> forall i :: 0 <= i < |v| ==> v[i] != '\''
    ensures ValorLen("'" + v + "'" + rest, guloso) == Some(|v| + 2)
  {
    if guloso {
      assert "'" + v + "'" + rest == "'" + v + "'";
      ValorLenGuloso(v);
    } else {
      ValorLenAspas(v, rest);
    }
  }

  /** A whole field run followed by text on which the operators match. */
  lemma CasarInicioPrefixo(f: string, t: string, p: Resto, guloso: bool)
    requires CampoValido(f) && t != [] && !IsCampoChar(t[0]) && TentarOps(t, 0, guloso) == Some(p)
    ensures CasarInicio(f + t, guloso) == Some(Casamento(f, p.op, p.valor, |f| + p.len))
  {
    CampoLenExato(f, t);
    assert (f + t)[|f|..] == t;
    assert (f + t)[..|f|] == f;
    CasarInicioCampo(f + t, |f|, p, guloso);
  }

  lemma CondicaoAssoc(f: string, o: string, v: string, rest: string)
    ensures f + " " + o + " '" + v + "'" + rest == f + (" " + o + " " + ("'" + v + "'" + rest))
  {
  }

  /**
   * `campo op 'valor'` at the start of s is matched in one piece, with the
   * operator as spelled (lazily, or greedily when nothing follows).
   */
  lemma CasarCondicao(f: string, o: string, v: string, rest: string, guloso: bool)
    requires CampoValido(f) && OperadorValido(o) && |v| > 0 && forall i :: 0 <= i < |v| ==> v[i] != '\n'
    requires guloso ==> rest == []
    requires !guloso ==> forall i :: 0 <= i < |v| ==> v[i] != '\''
    ensures CasarInicio(f + " " + o + " '" + v + "'" + rest, guloso) ==
      Some(Casamento(f, o, "'" + v + "'", |f| + |o| + |v| + 4))
  {
    ValorLenCondicao(v, rest, guloso);
    CasarCondicaoValor(f, o, v, rest, guloso);
  }

  /** CasarCondicao once the literal's length is known. */
  lemma CasarCondicaoValor(f: string, o: string, v: string, rest: string, guloso: bool)
    requires CampoValido(f) && OperadorValido(o) && ValorLen("'" + v + "'" + rest, guloso) == Some(|v| + 2)
    ensures CasarInicio(f + " " + o + " '" + v + "'" + rest, guloso) ==
      Some(Casamento(f, o, "'" + v + "'", |f| + |o| + |v| + 4))
  {
    var L := "'" + v + "'" + rest;
    var s := f + " " + o + " '" + v + "'" + rest;
    var lit := "'" + v + "'";
    var n := |v| + 2;
    assert L[..n] == lit by {
      LiteralInicio(v, rest);
    }
    assert s == f + (" " + o + " " + L) by {
      CondicaoAssoc(f, o, v, rest);
    }
    CasarLiteral(f, o, L, lit, s, n, guloso);
    assert |f| + |o| + |v| + 4 == |f| + |o| + n + 2;
  }

  lemma LiteralInicio(v: string, rest: string)
    ensures ("'" + v + "'" + rest)[..|v| + 2] == "'" + v + "'"
  {
  }

  /** CasarOperador, for a text s spelled as the field, the operator and L, and the literal lit cut from L. */
  lemma CasarLiteral(f: string, o: string, L: string, lit: string, s: string, n: nat, guloso: bool)
    requires CampoValido(f) && OperadorValido(o) && L != [] && L[0] == '\'' && ValorLen(L, guloso) == Some(n)
    requires n <= |L| && L[..n] == lit && s == f + (" " + o + " " + L)
    ensures CasarInicio(s, guloso) == Some(Casamento(f, o, lit, |f| + |o| + n + 2))
  {
    CasarOperador(f, o, L, n, guloso);
  }

  /** A field, a blank, an operator spelling, a blank and a literal of length n. */
  lemma CasarOperador(f: string, o: string, L: string, n: nat, guloso: bool)
    requires CampoValido(f) && OperadorValido(o) && L != [] && L[0] == '\'' && ValorLen(L, guloso) == Some(n)
    ensures CasarInicio(f + (" " + o + " " + L), guloso) == Some(Casamento(f, o, L[..n], |f| + (|o| + 2 + n)))
  {
    var t := " " + o + " " + L;
    var p := Resto(o, L[..n], |o| + 2 + n);
    TentarOpsOperador(o, L, n, guloso);
    assert t[0] == ' ' && !IsCampoChar(' ');
    CasarInicioPrefixo(f, t, p, guloso);
    assert Casamento(f, p.op, p.valor, |f| + p.len) == Casamento(f, o, L[..n], |f| + (|o| + 2 + n));
  }

  lemma MesmoTexto(s: string, s2: string, m: Casamento, guloso: bool)
    requires s == s2 && CasarInicio(s2, guloso) == Some(m)
    ensures CasarInicio(s, guloso) == Some(m)
  {
  }

  /** The operators other than LIKE start with '=', '<' or '>'. */
  lemma OpNaoCasaCampo(y: string, k: nat)
    requires k < |OPERADORES| && k != 1 && y != [] && IsCampoChar(y[0])
    ensures !OpAt(y, OPERADORES[k])
  {
    var op := OPERADORES[k];
    assert op[0] == '=' || op[0] == '<' || op[0] == '>';
    assert LowerChar(op[0]) == op[0];
  }

  /**
   * A run of field characters, a blank and then a character that separates:
   * LIKE may be spelled by the run, but no literal can follow it.
   */
  lemma LikeSemValor(a: string, b: string, guloso: bool)
    requires CampoValido(a) && b != [] && Separa(b[0])
    ensures var y := a + " " + b;
      OpAt(y, "LIKE") ==> ValorLen(y[4..][Brancos(y[4..])..], guloso).None?
  {
    var y := a + " " + b;
    if OpAt(y, "LIKE") {
      OpAtChars(y, "LIKE");
      assert y[|a|] == ' ' && LowerChar(' ') == ' ';
      assert forall i :: 0 <= i < 4 ==> LowerChar("LIKE"[i]) != ' ';
      assert |a| >= 4;
      var u := y[4..];
      if |a| > 4 {
        assert u[0] == a[4];
        CampoSepara(a[4]);
        assert Brancos(u) == 0;
        assert u[0..][0] == a[4];
      } else {
        assert u == " " + b;
        BrancosUm(b);
        assert u[1..] == b;
      }
    }
  }

  lemma TentarOpFalha(x: string, k: nat, a: string, b: string, guloso: bool)
    requires k < |OPERADORES|
    requires CampoValido(a) && b != [] && Separa(b[0])
    requires x[Brancos(x)..] == a + " " + b
    ensures TentarOp(x, OPERADORES[k], guloso).None?
  {
    if k == 1 {
      assert OPERADORES[k] == "LIKE";
      LikeFalha(x, a, b, guloso);
    } else {
      OpNaoCasaCampo(x[Brancos(x)..], k);
      TentarOpSemOp(x, OPERADORES[k], guloso, Brancos(x));
    }
  }

  /** LIKE fails on a field run followed by a blank and a separating character. */
  lemma LikeFalha(x: string, a: string, b: string, guloso: bool)
    requires CampoValido(a) && b != [] && Separa(b[0])
    requires x[Brancos(x)..] == a + " " + b
    ensures TentarOp(x, "LIKE", guloso).None?
  {
    var bx := Brancos(x);
    var y := x[bx..];
    LikeSemValor(a, b, guloso);
    if OpAt(y, "LIKE") {
      var u := x[bx + 4..];
      assert u == y[4..];
      TentarOpSemResto(x, "LIKE", guloso, bx, u, Brancos(u));
    } else {
      TentarOpSemOp(x, "LIKE", guloso, bx);
    }
  }

  lemma {:induction false} TentarOpsFalham(x: string, k: nat, a: string, b: string, guloso: bool)
    requires CampoValido(a) && b != [] && Separa(b[0])
    requires x[Brancos(x)..] == a + " " + b
    ensures TentarOps(x, k, guloso).None?
    decreases |OPERADORES| - k
  {
    if k < |OPERADORES| {
      TentarOpFalha(x, k, a, b, guloso);
      TentarOpsFalham(x, k + 1, a, b, guloso);
    }
  }

  /** A word of letters, a blank and a field, a blank and an operator: no match starts in the word. */
  lemma {:induction false} PalavraNaoCasa(w: string, f: string, b: string, q: nat, guloso: bool)
    requires |w| > 0 && (forall i :: 0 <= i < |w| ==> IsAsciiLetter(w[i])) && CampoValido(f)
    requires b != [] && Separa(b[0])
    requires 0 < q <= |w|
    ensures CasarCampo(w + " " + f + " " + b, q, guloso).None?
    decreases q
  {
    var s := w + " " + f + " " + b;
    var x := s[q..];
    if q < |w| {
      assert x == w[q..] + " " + (f + " " + b);
      assert Brancos(x) == 0 by { assert x[0] == w[q]; }
      assert x[0..] == x;
      CampoSepara(f[0]);
      TentarOpsFalham(x, 0, w[q..], f + " " + b, guloso);
    } else {
      assert x == " " + (f + " " + b);
      CampoSepara(f[0]);
      BrancosUm(f + " " + b);
      assert x[1..] == f + " " + b;
      TentarOpsFalham(x, 0, f, b, guloso);
    }
    if q > 1 {
      PalavraNaoCasa(w, f, b, q - 1, guloso);
    }
  }

  lemma PalavraNaoCasaInicio(w: string, f: string, b: string, guloso: bool)
    requires |w| > 0 && (forall i :: 0 <= i < |w| ==> IsAsciiLetter(w[i])) && CampoValido(f)
    requires b != [] && Separa(b[0])
    ensures CasarInicio(w + " " + f + " " + b, guloso).None?
  {
    var s := w + " " + f + " " + b;
    CampoLenExato(w, " " + f + " " + b);
    assert s == w + (" " + f + " " + b);
    PalavraNaoCasa(w, f, b, |w|, guloso);
  }

  // The sequence identities below are kept in lemmas of their own, so that the
  // proofs about Reescrever do not have to re-derive them among its unfoldings.

  lemma Assoc3(x: string, y: string, z: string)
    ensures x + (y + z) == x + y + z
  {
  }

  lemma ConsCauda(x: string, t: string)
    requires x != []
    ensures (x + t)[0] == x[0] && (x + t)[1..] == x[1..] + t
  {
  }

  lemma CondicaoAposConector(w: string, f: string, o: string, v: string, r: string)
    ensures w + " " + (f + " " + o + " '" + v + "'" + r) == w + " " + f + " " + (o + " '" + v + "'" + r)
  {
  }

  lemma DropCondicao(f: string, o: string, v: string, rest: string)
    ensures (f + " " + o + " '" + v + "'" + rest)[|f| + |o| + |v| + 4..] == rest
  {
    assert f + " " + o + " '" + v + "'" + rest == (f + " " + o + " '" + v + "'") + rest;
  }

  /** One unfolding of Reescrever where a match starts. */
  lemma ReescreverCasa(s: string, m: Casamento, prefixo: string, guloso: bool)
    requires s != [] && CasarInicio(s, guloso) == Some(m)
    ensures Reescrever(s, prefixo, guloso) ==
      (m.campo + " " + m.op + " :" + prefixo + m.campo + Reescrever(s[m.fim..], prefixo, guloso).0,
       [(m.campo, m.valor)] + Reescrever(s[m.fim..], prefixo, guloso).1)
  {
  }

  /** One unfolding of Reescrever where no match starts. */
  lemma ReescreverCopia(x: string, t: string, prefixo: string, guloso: bool)
    requires x != [] && CasarInicio(x + t, guloso).None?
    ensures Reescrever(x + t, prefixo, guloso) ==
      ([x[0]] + Reescrever(x[1..] + t, prefixo, guloso).0, Reescrever(x[1..] + t, prefixo, guloso).1)
  {
    ConsCauda(x, t);
  }

  /**
   * A condition at the start is rewritten keeping the operator as spelled,
   * and the text after it is rewritten on its own.
   */
  lemma ReescreverPrimeira(f: string, o: string, v: string, rest: string, prefixo: string, guloso: bool)
    requires CampoValido(f) && OperadorValido(o) && |v| > 0 && forall i :: 0 <= i < |v| ==> v[i] != '\n'
    requires guloso ==> rest == []
    requires !guloso ==> forall i :: 0 <= i < |v| ==> v[i] != '\''
    ensures Reescrever(f + " " + o + " '" + v + "'" + rest, prefixo, guloso) ==
      (f + " " + o + " :" + prefixo + f + Reescrever(rest, prefixo, guloso).0,
       [(f, "'" + v + "'")] + Reescrever(rest, prefixo, guloso).1)
  {
    var s := f + " " + o + " '" + v + "'" + rest;
    CasarCondicao(f, o, v, rest, guloso);
    var m := Casamento(f, o, "'" + v + "'", |f| + |o| + |v| + 4);
    ReescreverCasa(s, m, prefixo, guloso);
    DropCondicao(f, o, v, rest);
  }

  lemma VazioMais(t: string)
    ensures [] + t == t
  {
  }

  /** Text that does not start with a field character matches nothing. */
  lemma NaoCampoNaoCasa(s: string, guloso: bool)
    requires s != [] && !IsCampoChar(s[0])
    ensures CasarInicio(s, guloso).None?
  {
    assert CampoLen(s) == 0;
  }

  /** The words of the connector are made of letters. */
  lemma LetrasDoConector()
    ensures forall i :: 0 <= i < |"AND"| ==> IsAsciiLetter("AND"[i])
    ensures forall i :: 0 <= i < |"ND"| ==> IsAsciiLetter("ND"[i])
    ensures forall i :: 0 <= i < |"D"| ==> IsAsciiLetter("D"[i])
    ensures "AND"[1..] == "ND" && "ND"[1..] == "D" && "D"[1..] == []
    ensures " AND "[0] == ' ' && " AND "[1..] == "AND" + " "
  {
    assert "AND"[0] == 'A' && "AND"[1] == 'N' && "AND"[2] == 'D';
  }

  /** A word of letters and a blank before a condition: its first letter is copied through. */
  lemma CopiaPalavra(w: string, f: string, o: string, v: string, r: string, prefixo: string, guloso: bool)
    requires |w| > 0 && (forall i :: 0 <= i < |w| ==> IsAsciiLetter(w[i])) && CampoValido(f) && OperadorValido(o)
    ensures var t := f + " " + o + " '" + v + "'" + r;
      Reescrever(w + " " + t, prefixo, guloso) ==
        ([w[0]] + Reescrever(w[1..] + " " + t, prefixo, guloso).0, Reescrever(w[1..] + " " + t, prefixo, guloso).1)
  {
    var t := f + " " + o + " '" + v + "'" + r;
    assert CasarInicio(w + " " + t, guloso).None? by {
      var b := o + " '" + v + "'" + r;
      OperadorInicio(o);
      assert b[0] == o[0];
      CondicaoAposConector(w, f, o, v, r);
      PalavraNaoCasaInicio(w, f, b, guloso);
    }
    assert (w + " ")[0] == w[0] && (w + " ")[1..] == w[1..] + " ";
    ReescreverCopia(w + " ", t, prefixo, guloso);
  }

  /** The blank before a condition is copied through. */
  lemma ReescreverBranco(f: string, o: string, v: string, r: string, prefixo: string, guloso: bool)
    ensures var t := f + " " + o + " '" + v + "'" + r;
      var fim := Reescrever(t, prefixo, guloso);
      Reescrever(" " + t, prefixo, guloso) == ([' '] + fim.0, fim.1)
  {
    var t := f + " " + o + " '" + v + "'" + r;
    ConsCauda(" ", t);
    NaoCampoNaoCasa(" " + t, guloso);
    ReescreverCopia(" ", t, prefixo, guloso);
    assert " "[0] == ' ' && " "[1..] + t == t;
  }

  /** "D" and the blank before a condition. */
  lemma ReescreverPalavraD(f: string, o: string, v: string, r: string, prefixo: string, guloso: bool)
    requires CampoValido(f) && OperadorValido(o)
    ensures var t := f + " " + o + " '" + v + "'" + r;
      var fim := Reescrever(t, prefixo, guloso);
      Reescrever("D" + " " + t, prefixo, guloso) == (['D'] + ([' '] + fim.0), fim.1)
  {
    var t := f + " " + o + " '" + v + "'" + r;
    LetrasDoConector();
    ReescreverBranco(f, o, v, r, prefixo, guloso);
    CopiaPalavra("D", f, o, v, r, prefixo, guloso);
    assert "D"[1..] + " " + t == " " + t;
  }

  /** "ND" and the blank before a condition. */
  lemma ReescreverPalavraND(f: string, o: string, v: string, r: string, prefixo: string, guloso: bool)
    requires CampoValido(f) && OperadorValido(o)
    ensures var t := f + " " + o + " '" + v + "'" + r;
      var fim := Reescrever(t, prefixo, guloso);
      Reescrever("ND" + " " + t, prefixo, guloso) == (['N'] + (['D'] + ([' '] + fim.0)), fim.1)
  {
    LetrasDoConector();
    ReescreverPalavraD(f, o, v, r, prefixo, guloso);
    CopiaPalavra("ND", f, o, v, r, prefixo, guloso);
  }

  /** The word "AND" and the blank after it, before a condition, are copied through letter by letter. */
  lemma ReescreverPalavraAnd(f: string, o: string, v: string, r: string, prefixo: string, guloso: bool)
    requires CampoValido(f) && OperadorValido(o)
    ensures var t := f + " " + o + " '" + v + "'" + r;
      var fim := Reescrever(t, prefixo, guloso);
      Reescrever("AND" + " " + t, prefixo, guloso) == (['A'] + (['N'] + (['D'] + ([' '] + fim.0))), fim.1)
  {
    LetrasDoConector();
    ReescreverPalavraND(f, o, v, r, prefixo, guloso);
    CopiaPalavra("AND", f, o, v, r, prefixo, guloso);
  }

  /** The connector " AND " before a condition is copied through. */
  lemma ReescreverConector(f: string, o: string, v: string, r: string, prefixo: string, guloso: bool)
    requires CampoValido(f) && OperadorValido(o)
    ensures var t := f + " " + o + " '" + v + "'" + r;
      Reescrever(" AND " + t, prefixo, guloso) ==
        (" AND " + Reescrever(t, prefixo, guloso).0, Reescrever(t, prefixo, guloso).1)
  {
    var t := f + " " + o + " '" + v + "'" + r;
    var fim := Reescrever(t, prefixo, guloso);
    LetrasDoConector();
    ConsCauda(" AND ", t);
    NaoCampoNaoCasa(" AND " + t, guloso);
    ReescreverCopia(" AND ", t, prefixo, guloso);
    assert " AND "[1..] + t == "AND" + " " + t;
    ReescreverPalavraAnd(f, o, v, r, prefixo, guloso);
    var c := Reescrever(" AND " + t, prefixo, guloso);
    assert c.0 == [' '] + (['A'] + (['N'] + (['D'] + ([' '] + fim.0)))) && c.1 == fim.1;
    ConectorTexto(fim.0);
    assert c.0 == " AND " + fim.0;
  }

  lemma ConectorTexto(x: string)
    ensures [' '] + (['A'] + (['N'] + (['D'] + ([' '] + x)))) == " AND " + x
  {
  }

  /** One literal between quotes loses exactly those quotes. */
  lemma SemAspasCitado(v: string)
    ensures SemAspas("'" + v + "'") == v
  {
    var a := ("'" + v + "'")[1..];
    assert a == v + "'";
    assert a[..|v|] == v;
  }

  lemma DuasAspasTexto()
    ensures "a = 'x' AND b = 'y'" == "a" + " " + "=" + " '" + "x' AND b = 'y" + "'" + ""
    ensures "a" + " " + "=" + " :" + "w_" + "a" + "" == "a = :w_a"
    ensures ":" + "w_" + "a" == ":w_a"
  {
  }

  /** Two quoted conditions come out as one: the first literal runs on to the last quote. */
  lemma Clausula2PrepareDuasAspas()
    ensures Clausula2Prepare("a = 'x' AND b = 'y'", "w_") == Preparo("a = :w_a", [(":w_a", "x' AND b = 'y")])
  {
    var v := "x' AND b = 'y";
    DuasAspasTexto();
    assert CampoValido("a");
    assert OperadorValido("=");
    ReescreverPrimeira("a", "=", v, "", "w_", true);
    SemAspasCitado(v);
  }

  // ------------------------------------------- clausula2Prepare, corrected form

  /** A condition `campo op 'valor'` as the pattern sees it. */
  datatype Comparacao = Comparacao(campo: string, op: string, valor: string)

  /** A field, an operator spelling and a one-line literal with no quote. */
  predicate CondicaoSimples(c: Comparacao)
  {
    CampoValido(c.campo) && OperadorValido(c.op) && |c.valor| > 0 &&
    (forall i :: 0 <= i < |c.valor| ==> c.valor[i] != '\'' && c.valor[i] != '\n')
  }

  function CondicaoTexto(c: Comparacao): string
  {
    c.campo + " " + c.op + " '" + c.valor + "'"
  }

  function CondicoesTexto(cs: seq<Comparacao>): (r: seq<string>)
    ensures |r| == |cs|
    ensures forall i :: 0 <= i < |cs| ==> r[i] == CondicaoTexto(cs[i])
    decreases |cs|
  {
    if cs == [] then [] else [CondicaoTexto(cs[0])] + CondicoesTexto(cs[1..])
  }

  /** The placeholder text of a condition: field, operator as spelled, ":PREFIXfield". */
  function Placeholder(c: Comparacao, prefixo: string): string
  {
    c.campo + " " + c.op + " :" + prefixo + c.campo
  }

  function Placeholders(cs: seq<Comparacao>, prefixo: string): (r: seq<string>)
    ensures |r| == |cs|
    ensures forall i :: 0 <= i < |cs| ==> r[i] == Placeholder(cs[i], prefixo)
    decreases |cs|
  {
    if cs == [] then [] else [Placeholder(cs[0], prefixo)] + Placeholders(cs[1..], prefixo)
  }

  function Citados(cs: seq<Comparacao>): (r: seq<(string, string)>)
    ensures |r| == |cs|
    ensures forall i :: 0 <= i < |cs| ==> r[i] == (cs[i].campo, "'" + cs[i].valor + "'")
    decreases |cs|
  {
    if cs == [] then [] else [(cs[0].campo, "'" + cs[0].valor + "'")] + Citados(cs[1..])
  }

  /** What follows the first condition in the AND-joined text. */
  function DepoisDaPrimeira(cs: seq<Comparacao>): string
    requires |cs| >= 1
  {
    if |cs| == 1 then "" else " AND " + Join(CondicoesTexto(cs[1..]), " AND ")
  }

  lemma JoinPrimeira(cs: seq<Comparacao>)
    requires |cs| >= 1
    ensures Join(CondicoesTexto(cs), " AND ") == CondicaoTexto(cs[0]) + DepoisDaPrimeira(cs)
  {
    if |cs| > 1 {
      assert CondicoesTexto(cs)[1..] == CondicoesTexto(cs[1..]);
    }
  }

  lemma JoinPlaceholders(cs: seq<Comparacao>, prefixo: string, x: string)
    requires |cs| >= 2 && x == Join(Placeholders(cs[1..], prefixo), " AND ")
    ensures Placeholder(cs[0], prefixo) + (" AND " + x) == Join(Placeholders(cs, prefixo), " AND ")
  {
    assert Placeholders(cs, prefixo)[1..] == Placeholders(cs[1..], prefixo);
  }

  lemma CitadosCauda(cs: seq<Comparacao>)
    requires |cs| >= 1
    ensures Citados(cs) == [(cs[0].campo, "'" + cs[0].valor + "'")] + Citados(cs[1..])
  {
  }

  /**
   * The rewrite of AND-joined simple conditions: each becomes
   * `campo op :PREFIXcampo`, with its operator as spelled.
   */
  lemma {:induction false} ReescreverCondicoes(cs: seq<Comparacao>, prefixo: string)
    requires |cs| >= 1 && forall i :: 0 <= i < |cs| ==> CondicaoSimples(cs[i])
    ensures Reescrever(Join(CondicoesTexto(cs), " AND "), prefixo, false) ==
      (Join(Placeholders(cs, prefixo), " AND "), Citados(cs))
    decreases |cs|
  {
    var c := cs[0];
    assert CondicaoSimples(c);
    JoinPrimeira(cs);
    var r := DepoisDaPrimeira(cs);
    ReescreverPrimeira(c.campo, c.op, c.valor, r, prefixo, false);
    CitadosCauda(cs);
    if |cs| == 1 {
      assert Join(Placeholders(cs, prefixo), " AND ") == Placeholder(c, prefixo) + "";
      assert Citados(cs[1..]) == [];
    } else {
      var d := cs[1];
      assert CondicaoSimples(d);
      JoinPrimeira(cs[1..]);
      assert cs[1..][0] == d;
      ReescreverConector(d.campo, d.op, d.valor, DepoisDaPrimeira(cs[1..]), prefixo, false);
      ReescreverCondicoes(cs[1..], prefixo);
      JoinPlaceholders(cs, prefixo, Join(Placeholders(cs[1..], prefixo), " AND "));
    }
  }

  predicate CamposDistintos(cs: seq<Comparacao>)
  {
    forall i, j :: 0 <= i < j < |cs| ==> cs[i].campo != cs[j].campo
  }

  function ValoresEsperados(cs: seq<Comparacao>, prefixo: string): (r: seq<(string, string)>)
    ensures |r| == |cs|
    ensures forall i :: 0 <= i < |cs| ==> r[i] == (":" + prefixo + cs[i].campo, cs[i].valor)
    decreases |cs|
  {
    if cs == [] then [] else [(":" + prefixo + cs[0].campo, cs[0].valor)] + ValoresEsperados(cs[1..], prefixo)
  }

  lemma PrefixoInjetivo(prefixo: string, a: string, b: string)
    requires ":" + prefixo + a == ":" + prefixo + b
    ensures a == b
  {
    var n := 1 + |prefixo|;
    assert (":" + prefixo + a)[n..] == a;
    assert (":" + prefixo + b)[n..] == b;
  }

  /** No key of acc is the name of a condition in cs. */
  predicate NomesLivres(cs: seq<Comparacao>, prefixo: string, acc: seq<(string, string)>)
  {
    forall i, j :: 0 <= i < |cs| && 0 <= j < |acc| ==> acc[j].0 != ":" + prefixo + cs[i].campo
  }

  lemma NomesLivresPasso(cs: seq<Comparacao>, prefixo: string, acc: seq<(string, string)>)
    requires |cs| >= 1 && CamposDistintos(cs) && NomesLivres(cs, prefixo, acc)
    ensures NomesLivres(cs[1..], prefixo, acc + [(":" + prefixo + cs[0].campo, cs[0].valor)])
    ensures CamposDistintos(cs[1..])
  {
    var k := ":" + prefixo + cs[0].campo;
    var acc' := acc + [(k, cs[0].valor)];
    var rest := cs[1..];
    forall i, j | 0 <= i < |rest| && 0 <= j < |acc'| ensures acc'[j].0 != ":" + prefixo + rest[i].campo {
      assert rest[i] == cs[i + 1];
      if j == |acc| {
        if k == ":" + prefixo + rest[i].campo {
          PrefixoInjetivo(prefixo, cs[0].campo, rest[i].campo);
        }
      }
    }
  }

  lemma ValoresPasso(cs: seq<Comparacao>, prefixo: string, acc: seq<(string, string)>)
    requires |cs| >= 1 && NomesLivres(cs, prefixo, acc)
    ensures Valores(Citados(cs), prefixo, acc) ==
      Valores(Citados(cs[1..]), prefixo, acc + [(":" + prefixo + cs[0].campo, cs[0].valor)])
  {
    var k := ":" + prefixo + cs[0].campo;
    CitadosCauda(cs);
    SemAspasCitado(cs[0].valor);
    assert !HasKey(acc, k);
    assert Citados(cs)[1..] == Citados(cs[1..]);
  }

  lemma {:induction false} ValoresCitados(cs: seq<Comparacao>, prefixo: string, acc: seq<(string, string)>)
    requires CamposDistintos(cs) && NomesLivres(cs, prefixo, acc)
    ensures Valores(Citados(cs), prefixo, acc) == acc + ValoresEsperados(cs, prefixo)
    decreases |cs|
  {
    if cs != [] {
      var x := (":" + prefixo + cs[0].campo, cs[0].valor);
      ValoresPasso(cs, prefixo, acc);
      NomesLivresPasso(cs, prefixo, acc);
      ValoresCitados(cs[1..], prefixo, acc + [x]);
      EsperadosCauda(cs, prefixo, acc);
    }
  }

  lemma EsperadosCauda(cs: seq<Comparacao>, prefixo: string, acc: seq<(string, string)>)
    requires |cs| >= 1
    ensures acc + [(":" + prefixo + cs[0].campo, cs[0].valor)] + ValoresEsperados(cs[1..], prefixo) ==
      acc + ValoresEsperados(cs, prefixo)
  {
    var x := (":" + prefixo + cs[0].campo, cs[0].valor);
    assert ValoresEsperados(cs, prefixo) == [x] + ValoresEsperados(cs[1..], prefixo);
  }

  /**
   * With each literal closed by its own quote, AND-joined conditions
   * `campo op 'valor'` give one placeholder per condition, each keeping its
   * operator as spelled, and the value map sends each ":PREFIXcampo" to its
   * literal without quotes, in order.
   */
  lemma Clausula2PrepareCorrigidoSpec(cs: seq<Comparacao>, prefixo: string)
    requires |cs| >= 1 && CamposDistintos(cs) && forall i :: 0 <= i < |cs| ==> CondicaoSimples(cs[i])
    ensures Clausula2PrepareCorrigido(Join(CondicoesTexto(cs), " AND "), prefixo) ==
      Preparo(Join(Placeholders(cs, prefixo), " AND "), ValoresEsperados(cs, prefixo))
  {
    ReescreverCondicoes(cs, prefixo);
    ValoresCitados(cs, prefixo, []);
  }

  /** The operator as written in the clause survives the rewrite: "nome like 'x'" keeps "like". */
  lemma OperadorMantido(f: string, o: string, v: string, prefixo: string)
    requires CampoValido(f) && OperadorValido(o) && |v| > 0
    requires forall i :: 0 <= i < |v| ==> v[i] != '\'' && v[i] != '\n'
    ensures Clausula2Prepare(f + " " + o + " '" + v + "'", prefixo) ==
      Preparo(f + " " + o + " :" + prefixo + f, [(":" + prefixo + f, v)])
  {
    var s := f + " " + o + " '" + v + "'";
    ReescreverPrimeira(f, o, v, "", prefixo, true);
    var vazio := Reescrever("", prefixo, true);
    assert vazio == ([], []);
    assert s + "" == s;
    var r := Reescrever(s, prefixo, true);
    assert r.0 == f + " " + o + " :" + prefixo + f + [];
    assert r.1 == [(f, "'" + v + "'")] + [];
    SemAspasCitado(v);
    var k := ":" + prefixo + f;
    assert Valores(r.1, prefixo, []) == Valores([], prefixo, [(k, v)]);
  }
  // ------------------------------------------------------------ prepararSelect

  /**
   * The substitution of prepararSelect: `^(SELECT\s+)__CAMPOS__(\s+FROM)` gets the
   * field list in place of the placeholder; any other text is left as it is.
   */
  function PrepararSelect(listaCampos: string, sql: string): (r: string)
  {
    var n := |"SELECT"|;
    if StartsWith(sql, "SELECT") then
      var b := Brancos(sql[n..]);
      var p := n + b;
      if b > 0 && StartsWith(sql[p..], "__CAMPOS__") then
        var q := p + |"__CAMPOS__"|;
        var b2 := Brancos(sql[q..]);
        if b2 > 0 && StartsWith(sql[q + b2..], "FROM") then sql[..p] + listaCampos + sql[q..] else sql
      else sql
    else sql
  }

  lemma SelectPedacos(resto: string)
    ensures var sql := "SELECT __CAMPOS__ FROM" + resto;
      sql[..6] == "SELECT" && sql[6..] == " " + ("__CAMPOS__ FROM" + resto) &&
      sql[7..] == "__CAMPOS__ FROM" + resto && sql[7..][..10] == "__CAMPOS__" &&
      sql[17..] == " " + ("FROM" + resto) && sql[18..] == "FROM" + resto &&
      sql[18..][..4] == "FROM" && sql[..7] == "SELECT "
  {
    SelectInicio(resto);
    SelectFrom(resto);
  }

  lemma SelectInicio(resto: string)
    ensures var sql := "SELECT __CAMPOS__ FROM" + resto;
      sql[..6] == "SELECT" && sql[6..] == " " + ("__CAMPOS__ FROM" + resto) &&
      sql[7..] == "__CAMPOS__ FROM" + resto && sql[..7] == "SELECT "
  {
  }

  lemma SelectFrom(resto: string)
    ensures var sql := "SELECT __CAMPOS__ FROM" + resto;
      sql[7..][..10] == "__CAMPOS__" && sql[17..] == " " + ("FROM" + resto) &&
      sql[18..] == "FROM" + resto && sql[18..][..4] == "FROM"
  {
  }

  /** A SELECT built with the placeholder gets the field list in its place. */
  lemma PrepararSelectFill(listaCampos: string, resto: string)
    ensures PrepararSelect(listaCampos, "SELECT __CAMPOS__ FROM" + resto) == "SELECT " + listaCampos + " FROM" + resto
  {
    var sql := "SELECT __CAMPOS__ FROM" + resto;
    SelectPedacos(resto);
    BrancosUm("__CAMPOS__ FROM" + resto);
    BrancosUm("FROM" + resto);
    Assoc3("SELECT " + listaCampos, " ", "FROM" + resto);
    assert " FROM" + resto == " " + ("FROM" + resto);
  }

  /** Without the placeholder after SELECT the query is untouched. */
  lemma PrepararSelectUntouched(listaCampos: string, sql: string)
    requires !Occurs(sql, "__CAMPOS__")
    ensures PrepararSelect(listaCampos, sql) == sql
  {
    var n := 6;
    if StartsWith(sql, "SELECT") {
      var b := Brancos(sql[n..]);
      var p := n + b;
      if b > 0 && StartsWith(sql[p..], "__CAMPOS__") {
        assert sql[p..p + 10] == "__CAMPOS__";
        assert OccursAt(sql, "__CAMPOS__", p);
      }
    }
  }
}
