// DLX\Classes\ConstrutorSQL (dlx/classes/construtorsql.classe.php): a fluent SQL
// builder that keeps each clause as a list in a field and renders them in a fixed
// order. The PDO handle it carries is not part of this model: the database's answers to
// the table and field existence checks are parameters of the methods that run them.

module ClasseConstrutorSql {
  import opened Wrappers
  import opened Text
  import opened Values
  import opened Assoc
  import opened Vetores
  import opened AjdConstrutorSql

  /** The argument of a clause method after PHP's (array) cast: one string, or a list of them. */
  datatype Arg = Um(s: string) | Varios(itens: seq<string>)

  function Itens(a: Arg): (r: seq<string>)
    ensures a.Um? ==> r == [a.s]
    ensures a.Varios? ==> r == a.itens
  {
    match a
    case Um(s) => [s]
    case Varios(itens) => itens
  }

  /** PHP's empty() on the argument before the cast. */
  predicate ArgVazio(a: Arg)
  {
    match a
    case Um(s) => s == "" || s == "0"
    case Varios(itens) => itens == []
  }

  /** Every field of a builder, so that a method can say which of them it changes. */
  datatype Estado = Construcao(
    query: string,
    tabela: string,
    camposInsert: seq<(Key, Value)>,
    join: seq<string>,
    where: seq<string>,
    having: seq<string>,
    groupBy: seq<string>,
    orderBy: seq<string>,
    sets: seq<string>,
    varExport: bool)

  // ------------------------------------------------------- clause lists

  /** Which clause a list belongs to, with the argument its entries depend on. */
  datatype Clausula = Condicao(andor: string) | Agrupamento | Ordenacao(tipo: string)

  /**
   * The entry an item becomes when n entries precede it: for WHERE and HAVING the
   * validated connector (none before the first entry), a blank and the condition;
   * for GROUP BY the item as filter_var's default filter gives it back; for ORDER BY
   * the expression and the validated direction, trimmed.
   */
  function Entrada(c: Clausula, n: nat, item: string): string
  {
    match c
    case Condicao(andor) => (if n > 0 then ValidarAndOr(andor) else "") + " " + item
    case Agrupamento => item
    case Ordenacao(tipo) => Trim(item + " " + ValidarTipoOrdenacao(tipo), WHITESPACE)
  }

  /** A clause list after one entry per item has been appended, in order. */
  function Anexados(lista: seq<string>, itens: seq<string>, c: Clausula): (r: seq<string>)
    ensures |r| == |lista| + |itens|
    ensures r[..|lista|] == lista
    decreases |itens|
  {
    if |itens| == 0 then lista
    else Anexados(lista, itens[..|itens| - 1], c) + [Entrada(c, |lista| + |itens| - 1, itens[|itens| - 1])]
  }

  lemma AnexadosSnoc(lista: seq<string>, v: seq<string>, x: string, c: Clausula)
    ensures Anexados(lista, v + [x], c) == Anexados(lista, v, c) + [Entrada(c, |lista| + |v|, x)]
  {
    assert (v + [x])[..|v|] == v;
  }

  /** One more item appends exactly one entry. */
  lemma AnexadosPasso(lista: seq<string>, itens: seq<string>, i: nat, c: Clausula)
    requires i < |itens|
    ensures Anexados(lista, itens[..i + 1], c) == Anexados(lista, itens[..i], c) + [Entrada(c, |lista| + i, itens[i])]
  {
    assert itens[..i + 1] == itens[..i] + [itens[i]];
    AnexadosSnoc(lista, itens[..i], itens[i], c);
  }

  /**
   * The callback where and having run over the conditions: each appends the
   * validated connector (none before the first entry), a blank and the condition.
   */
  method AnexarCondicoes(inicial: seq<string>, itens: seq<string>, andor: string) returns (lista: seq<string>)
    ensures lista == Anexados(inicial, itens, Condicao(andor))
  {
    lista := inicial;
    var i := 0;
    while i < |itens|
      invariant 0 <= i <= |itens|
      invariant lista == Anexados(inicial, itens[..i], Condicao(andor))
    {
      AnexadosPasso(inicial, itens, i, Condicao(andor));
      var conector := if |lista| > 0 then ValidarAndOr(andor) else "";
      EntradaCondicao(conector, |lista|, |inicial| + i, andor, itens[i]);
      lista := lista + [conector + " " + itens[i]];
      i := i + 1;
    }
    assert itens[..i] == itens;
  }

  /** The callback orderBy runs over the items: each appends "item TIPO", trimmed. */
  method AnexarOrdenacoes(inicial: seq<string>, itens: seq<string>, tipo: string) returns (lista: seq<string>)
    ensures lista == Anexados(inicial, itens, Ordenacao(tipo))
  {
    lista := inicial;
    var i := 0;
    while i < |itens|
      invariant 0 <= i <= |itens|
      invariant lista == Anexados(inicial, itens[..i], Ordenacao(tipo))
    {
      AnexadosPasso(inicial, itens, i, Ordenacao(tipo));
      var entrada := Trim(itens[i] + " " + ValidarTipoOrdenacao(tipo), WHITESPACE);
      EntradaOrdenacao(entrada, |inicial| + i, tipo, itens[i]);
      lista := lista + [entrada];
      i := i + 1;
    }
    assert itens[..i] == itens;
  }

  lemma EntradaOrdenacao(entrada: string, n: nat, tipo: string, item: string)
    requires entrada == Trim(item + " " + ValidarTipoOrdenacao(tipo), WHITESPACE)
    ensures entrada == Entrada(Ordenacao(tipo), n, item)
  {
  }

  /** The entry where and having append: the connector they pick, a blank and the condition. */
  lemma EntradaCondicao(conector: string, tamanho: nat, n: nat, andor: string, item: string)
    requires n == tamanho && conector == if tamanho > 0 then ValidarAndOr(andor) else ""
    ensures conector + " " + item == Entrada(Condicao(andor), n, item)
  {
  }

  /** Entry |lista| + i is the one item i gives at that position. */
  lemma {:induction false} AnexadosEntrada(lista: seq<string>, itens: seq<string>, c: Clausula, i: nat)
    requires i < |itens|
    ensures Anexados(lista, itens, c)[|lista| + i] == Entrada(c, |lista| + i, itens[i])
    decreases |itens|
  {
    if i < |itens| - 1 {
      AnexadosEntrada(lista, itens[..|itens| - 1], c, i);
      AnexadosAntes(lista, itens, c, i);
    } else {
      AnexadosUltimo(lista, itens, c);
    }
  }

  lemma AnexadosUltimo(lista: seq<string>, itens: seq<string>, c: Clausula)
    requires |itens| > 0
    ensures Anexados(lista, itens, c)[|lista| + |itens| - 1] == Entrada(c, |lista| + |itens| - 1, itens[|itens| - 1])
  {
  }

  lemma AnexadosAntes(lista: seq<string>, itens: seq<string>, c: Clausula, i: nat)
    requires i < |itens| - 1
    ensures Anexados(lista, itens, c)[|lista| + i] == Anexados(lista, itens[..|itens| - 1], c)[|lista| + i]
    ensures Entrada(c, |lista| + i, itens[..|itens| - 1][i]) == Entrada(c, |lista| + i, itens[i])
  {
    assert itens[..|itens| - 1][i] == itens[i];
  }

  /** The guards of the clause methods: the base query begins with the keyword (case sensitive). */
  predicate ESelect(q: string)
  {
    StartsWith(q, "SELECT")
  }

  predicate EInsert(q: string)
  {
    StartsWith(q, "INSERT")
  }

  predicate EUpdate(q: string)
  {
    StartsWith(q, "UPDATE")
  }

  predicate AceitaWhere(q: string)
  {
    ESelect(q) || EUpdate(q) || StartsWith(q, "DELETE")
  }

  /** The leaf callback of into: varExportBD when the builder exports values, the value itself otherwise. */
  function Exportar(varExport: bool): (Value, Key) -> Value
  {
    if varExport then (v: Value, k: Key) => VarExportBD(v) else (v: Value, k: Key) => v
  }

  /** The text a SET assignment gets: the value as a quoted literal when the builder exports values. */
  function ValorSet(varExport: bool, valor: string): string
  {
    if varExport then LiteralTexto(valor) else valor
  }

  // ------------------------------------------------------------- rendering

  function ChavesTexto(a: seq<(Key, Value)>): (r: seq<string>)
    ensures |r| == |a|
    ensures forall i :: 0 <= i < |a| ==> r[i] == KeyText(a[i].0)
    decreases |a|
  {
    if a == [] then [] else [KeyText(a[0].0)] + ChavesTexto(a[1..])
  }

  function ValoresTexto(a: seq<(Key, Value)>): (r: seq<string>)
    ensures |r| == |a|
    ensures forall i :: 0 <= i < |a| ==> r[i] == ValueText(a[i].1)
    decreases |a|
  {
    if a == [] then [] else [ValueText(a[0].1)] + ValoresTexto(a[1..])
  }

  /** One row of a multiple INSERT: its values between parentheses (a row that is not an array gives "()"). */
  function Tupla(v: Value): string
  {
    "(" + (if v.Arr? then Join(ValoresTexto(v.entries), ", ") else "") + ")"
  }

  function Tuplas(linhas: seq<(Key, Value)>): (r: seq<string>)
    ensures |r| == |linhas|
    ensures forall i :: 0 <= i < |linhas| ==> r[i] == Tupla(linhas[i].1)
    decreases |linhas|
  {
    if linhas == [] then [] else Tuplas(linhas[..|linhas| - 1]) + [Tupla(linhas[|linhas| - 1].1)]
  }

  /** The column names of an INSERT: the keys of row 0 of a multiple INSERT, else the keys of the map. */
  function Colunas(ci: seq<(Key, Value)>): seq<string>
  {
    if ArrayMulti(ci) then
      var linha := Get(ci, IntKey(0));
      if linha.Some? && linha.value.Arr? then ChavesTexto(linha.value.entries) else []
    else ChavesTexto(ci)
  }

  /** The column list and VALUES part, present only when there are insert values. */
  function ParteInsert(ci: seq<(Key, Value)>): string
  {
    if ci == [] then ""
    else
      " (" + Join(Colunas(ci), ", ") + ") VALUES " +
      (if ArrayMulti(ci) then Join(Tuplas(ci), ", ") else "(" + Join(ValoresTexto(ci), ", ") + ")")
  }

  /** A clause: its heading and its entries, or nothing when it has none. */
  function Parte(cabecalho: string, itens: seq<string>, sep: string): (r: string)
    ensures itens == [] ==> r == ""
    ensures itens != [] ==> StartsWith(r, cabecalho)
  {
    if itens == [] then "" else cabecalho + Join(itens, sep)
  }

  lemma SqlPorPartes(e: Estado, qi: string, qj: string, qs: string, qw: string, qg: string, qh: string, qo: string)
    requires qi == e.query + ParteInsert(e.camposInsert)
    requires qj == qi + Parte(" ", e.join, " ")
    requires qs == qj + Parte(" ", e.sets, ", ")
    requires qw == qs + Parte(" WHERE ", e.where, " ")
    requires qg == qw + Parte(" GROUP BY ", e.groupBy, ", ")
    requires qh == qg + Parte(" HAVING ", e.having, " ")
    requires qo == qh + Parte(" ORDER BY ", e.orderBy, ", ")
    ensures qo == Sql(e)
  {
  }

  lemma TuplasPasso(linhas: seq<(Key, Value)>, i: nat)
    requires i < |linhas|
    ensures Tuplas(linhas[..i + 1]) == Tuplas(linhas[..i]) + [Tupla(linhas[i].1)]
  {
    assert linhas[..i + 1][..i] == linhas[..i];
  }

  /** __toString: the base query, then INSERT values, JOIN, SET, WHERE, GROUP BY, HAVING and ORDER BY. */
  function Sql(e: Estado): string
  {
    e.query + ParteInsert(e.camposInsert) + Parte(" ", e.join, " ") + Parte(" ", e.sets, ", ") +
    Parte(" WHERE ", e.where, " ") + Parte(" GROUP BY ", e.groupBy, ", ") +
    Parte(" HAVING ", e.having, " ") + Parte(" ORDER BY ", e.orderBy, ", ")
  }

  // ------------------------------------------------------- existence checks

  /** The keys arrayMapRecursivo hands to its callback, in the order it reaches the leaves. */
  function ChavesFolhas(v: Value, i: nat): seq<Key>
    requires v.Arr? && i <= |v.entries|
    decreases v, |v.entries| - i
  {
    if i == |v.entries| then []
    else
      var (k, x) := v.entries[i];
      (if x.Arr? then ChavesFolhas(x, 0) else [k]) + ChavesFolhas(v, i + 1)
  }

  /**
   * campoExiste on each field in turn, as into's callback runs it: every field is in the
   * description, or the first one that is not throws its 1404.
   */
  function CamposExistem(info: seq<Campo>, campos: seq<Key>, tabela: string): (r: Outcome<()>)
    ensures r.Ok? <==> forall i :: 0 <= i < |campos| ==> CampoExiste(info, KeyText(campos[i]), tabela).Ok?
    ensures r.Throw? ==>
      exists i :: 0 <= i < |campos| && r == CampoExiste(info, KeyText(campos[i]), tabela) &&
        forall j :: 0 <= j < i ==> CampoExiste(info, KeyText(campos[j]), tabela).Ok?
    decreases |campos|
  {
    if campos == [] then Ok(())
    else
      var c := CampoExiste(info, KeyText(campos[0]), tabela);
      if c.Throw? then c
      else
        var r := CamposExistem(info, campos[1..], tabela);
        assert forall i :: 1 <= i < |campos| ==> campos[i] == campos[1..][i - 1];
        if r.Throw? then
          var k :| 0 <= k < |campos[1..]| && r == CampoExiste(info, KeyText(campos[1..][k]), tabela) &&
            forall j :: 0 <= j < k ==> CampoExiste(info, KeyText(campos[1..][j]), tabela).Ok?;
          assert r == CampoExiste(info, KeyText(campos[k + 1]), tabela);
          r
        else r
  }


  class ConstrutorSQL {
    var query: string
    var tabela: string
    var camposInsert: seq<(Key, Value)>
    var join: seq<string>
    var where: seq<string>
    var having: seq<string>
    var groupBy: seq<string>
    var orderBy: seq<string>
    var sets: seq<string>
    var varExport: bool

    function Estado(): Estado
      reads this
    {
      Construcao(query, tabela, camposInsert, join, where, having, groupBy, orderBy, sets, varExport)
    }

    /** A new builder: no query yet and every clause empty. */
    constructor (varExport: bool)
      ensures Estado() == Construcao("", "", [], [], [], [], [], [], [], varExport)
    {
      query := "";
      tabela := "";
      camposInsert := [];
      join := [];
      where := [];
      having := [];
      groupBy := [];
      orderBy := [];
      sets := [];
      this.varExport := varExport;
    }

    /** PHP's clone: a new builder with the same fields. */
    constructor Clone(o: ConstrutorSQL)
      ensures Estado() == o.Estado()
    {
      query := o.query;
      tabela := o.tabela;
      camposInsert := o.camposInsert;
      join := o.join;
      where := o.where;
      having := o.having;
      groupBy := o.groupBy;
      orderBy := o.orderBy;
      sets := o.sets;
      varExport := o.varExport;
    }

    // ------------------------------------------------------------- queries

    /**
     * insert: a table the database does not have throws tabelaExiste's 1404 and changes
     * nothing; otherwise this builder records the table and the returned clone holds
     * "INSERT INTO tabela".
     */
    method Insert(tabela: string, existe: bool) returns (r: Outcome<ConstrutorSQL>)
      modifies this
      ensures r.Throw? <==> !existe
      ensures r.Throw? ==> r == Falha(TabelaExiste(existe, tabela)) && unchanged(this)
      ensures r.Ok? ==> fresh(r.value)
      ensures r.Ok? ==> Estado() == old(Estado()).(tabela := tabela)
      ensures r.Ok? ==> r.value.Estado() == Estado().(query := "INSERT INTO " + tabela)
    {
      var t := TabelaExiste(existe, tabela);
      if t.Throw? {
        return Falha(t);
      }
      this.tabela := tabela;
      var c := new ConstrutorSQL.Clone(this);
      c.query := "INSERT INTO " + tabela;
      r := Ok(c);
    }

    /** select: as insert, and the clone holds "SELECT campos FROM tabela[ AS alias]". */
    method Select(tabela: string, alias: string, campos: string, existe: bool) returns (r: Outcome<ConstrutorSQL>)
      modifies this
      ensures r.Throw? <==> !existe
      ensures r.Throw? ==> r == Falha(TabelaExiste(existe, tabela)) && unchanged(this)
      ensures r.Ok? ==> fresh(r.value)
      ensures r.Ok? ==> Estado() == old(Estado()).(tabela := tabela)
      ensures r.Ok? ==> r.value.Estado() == Estado().(query := "SELECT " + campos + " FROM " + tabela + AdAlias(alias))
    {
      var t := TabelaExiste(existe, tabela);
      if t.Throw? {
        return Falha(t);
      }
      this.tabela := tabela;
      var c := new ConstrutorSQL.Clone(this);
      c.query := "SELECT " + campos + " FROM " + tabela + AdAlias(alias);
      r := Ok(c);
    }

    /** update: as insert, and the clone holds "UPDATE tabela SET". */
    method Update(tabela: string, existe: bool) returns (r: Outcome<ConstrutorSQL>)
      modifies this
      ensures r.Throw? <==> !existe
      ensures r.Throw? ==> r == Falha(TabelaExiste(existe, tabela)) && unchanged(this)
      ensures r.Ok? ==> fresh(r.value)
      ensures r.Ok? ==> Estado() == old(Estado()).(tabela := tabela)
      ensures r.Ok? ==> r.value.Estado() == Estado().(query := "UPDATE " + tabela + " SET")
    {
      var t := TabelaExiste(existe, tabela);
      if t.Throw? {
        return Falha(t);
      }
      this.tabela := tabela;
      var c := new ConstrutorSQL.Clone(this);
      c.query := "UPDATE " + tabela + " SET";
      r := Ok(c);
    }

    /** delete: as insert, and the clone holds "DELETE FROM tabela". */
    method Delete(tabela: string, existe: bool) returns (r: Outcome<ConstrutorSQL>)
      modifies this
      ensures r.Throw? <==> !existe
      ensures r.Throw? ==> r == Falha(TabelaExiste(existe, tabela)) && unchanged(this)
      ensures r.Ok? ==> fresh(r.value)
      ensures r.Ok? ==> Estado() == old(Estado()).(tabela := tabela)
      ensures r.Ok? ==> r.value.Estado() == Estado().(query := "DELETE FROM " + tabela)
    {
      var t := TabelaExiste(existe, tabela);
      if t.Throw? {
        return Falha(t);
      }
      this.tabela := tabela;
      var c := new ConstrutorSQL.Clone(this);
      c.query := "DELETE FROM " + tabela;
      r := Ok(c);
    }

    // ------------------------------------------------------------- clauses

    /** where: for a SELECT, UPDATE or DELETE, one entry per condition; otherwise nothing changes. */
    method Where(condicao: Arg, andor: string)
      modifies this
      ensures Estado() == old(Estado()).(where :=
        if AceitaWhere(old(query)) then Anexados(old(where), Itens(condicao), Condicao(andor)) else old(where))
    {
      if AceitaWhere(query) {
        where := AnexarCondicoes(where, Itens(condicao), andor);
      }
    }

    /** having: for a SELECT, one entry per condition; otherwise nothing changes. */
    method Having(condicao: Arg, andor: string)
      modifies this
      ensures Estado() == old(Estado()).(having :=
        if ESelect(old(query)) then Anexados(old(having), Itens(condicao), Condicao(andor)) else old(having))
    {
      if ESelect(query) {
        having := AnexarCondicoes(having, Itens(condicao), andor);
      }
    }

    /**
     * join: for a SELECT, a joined table the database does not have throws tabelaExiste's
     * 1404; otherwise one "TIPO JOIN tabela[ AS alias] ON on" entry is added. Nothing changes
     * for any other query or when it throws.
     */
    method Join(tabela: string, alias: string, on: string, tipo: string, existe: bool) returns (r: Outcome<()>)
      modifies this
      ensures ESelect(old(query)) ==> r == TabelaExiste(existe, tabela)
      ensures !ESelect(old(query)) ==> r.Ok?
      ensures Estado() == old(Estado()).(join :=
        if ESelect(old(query)) && existe
        then old(join) + [ValidarTipoJoin(tipo) + " JOIN " + tabela + AdAlias(alias) + " ON " + on]
        else old(join))
    {
      r := Ok(());
      if ESelect(query) {
        r := TabelaExiste(existe, tabela);
        if r.Ok? {
          join := join + [ValidarTipoJoin(tipo) + " JOIN " + tabela + AdAlias(alias) + " ON " + on];
        }
      }
    }

    /** groupBy: for a SELECT and a non-empty argument, one entry per item; otherwise nothing changes. */
    method GroupBy(agrupamento: Arg)
      modifies this
      ensures Estado() == old(Estado()).(groupBy :=
        if ESelect(old(query)) && !ArgVazio(agrupamento)
        then Anexados(old(groupBy), Itens(agrupamento), Agrupamento)
        else old(groupBy))
    {
      if ESelect(query) && !ArgVazio(agrupamento) {
        var itens := Itens(agrupamento);
        var i := 0;
        while i < |itens|
          invariant 0 <= i <= |itens|
          invariant Estado() == old(Estado()).(groupBy := Anexados(old(groupBy), itens[..i], Agrupamento))
        {
          AnexadosPasso(old(groupBy), itens, i, Agrupamento);
          groupBy := groupBy + [itens[i]];
          i := i + 1;
        }
        assert itens[..i] == itens;
      }
    }

    /** orderBy: for a SELECT, one "expressao TIPO" entry per item; otherwise nothing changes. */
    method OrderBy(ordem: Arg, tipo: string)
      modifies this
      ensures Estado() == old(Estado()).(orderBy :=
        if ESelect(old(query)) then Anexados(old(orderBy), Itens(ordem), Ordenacao(tipo)) else old(orderBy))
    {
      if ESelect(query) {
        orderBy := AnexarOrdenacoes(orderBy, Itens(ordem), tipo);
      }
    }

    /**
     * into: for an INSERT, each field reached by the mapping is checked against the table's
     * description (info, what infoCampos answers) and the first one missing throws its 1404;
     * otherwise the mapped values are added with array union (a column already present keeps
     * its value). Nothing changes for any other query or when it throws.
     */
    method Into(campos: seq<(Key, Value)>, info: seq<Campo>) returns (r: Outcome<()>)
      modifies this
      ensures EInsert(old(query)) ==> r == CamposExistem(info, ChavesFolhas(Arr(campos), 0), old(tabela))
      ensures !EInsert(old(query)) ==> r.Ok?
      ensures Estado() == old(Estado()).(camposInsert :=
        if EInsert(old(query)) && r.Ok?
        then Union(old(camposInsert), ArrayMapRecursivo(Exportar(old(varExport)), campos))
        else old(camposInsert))
    {
      r := Ok(());
      if EInsert(query) {
        r := CamposExistem(info, ChavesFolhas(Arr(campos), 0), tabela);
        if r.Ok? {
          camposInsert := Union(camposInsert, ArrayMapRecursivo(Exportar(varExport), campos));
        }
      }
    }

    /**
     * set: for an UPDATE, a field missing from the table's description (info) throws
     * campoExiste's 1404; otherwise one "campo = valor" entry is added. Nothing changes for
     * any other query or when it throws.
     */
    method Set(campo: string, valor: string, info: seq<Campo>) returns (r: Outcome<()>)
      modifies this
      ensures EUpdate(old(query)) ==> r == CampoExiste(info, campo, old(tabela))
      ensures !EUpdate(old(query)) ==> r.Ok?
      ensures Estado() == old(Estado()).(sets :=
        if EUpdate(old(query)) && r.Ok?
        then old(sets) + [campo + " = " + ValorSet(old(varExport), valor)]
        else old(sets))
    {
      r := Ok(());
      if EUpdate(query) {
        r := CampoExiste(info, campo, tabela);
        if r.Ok? {
          sets := sets + [campo + " = " + ValorSet(varExport, valor)];
        }
      }
    }

    /** __toString: the base query, then each non-empty part in its fixed order. */
    method ToString() returns (q: string)
      ensures q == Sql(Estado())
    {
      var insert := TextoInsert(camposInsert);
      q := query + insert;
      ghost var qi := q;
      q := AnexarClausula(q, " ", join, " ");
      ghost var qj := q;
      q := AnexarClausula(q, " ", sets, ", ");
      ghost var qs := q;
      q := AnexarClausula(q, " WHERE ", where, " ");
      ghost var qw := q;
      q := AnexarClausula(q, " GROUP BY ", groupBy, ", ");
      ghost var qg := q;
      q := AnexarClausula(q, " HAVING ", having, " ");
      ghost var qh := q;
      q := AnexarClausula(q, " ORDER BY ", orderBy, ", ");
      SqlPorPartes(Estado(), qi, qj, qs, qw, qg, qh, q);
    }
  }

  /**
   * The INSERT part of __toString: the column list and VALUES, one parenthesised row
   * per entry of a multiple INSERT, built with a loop over the rows.
   */
  method TextoInsert(ci: seq<(Key, Value)>) returns (r: string)
    ensures r == ParteInsert(ci)
  {
    r := "";
    if |ci| > 0 {
      var multi := ArrayMulti(ci);
      var valores: string;
      if multi {
        var tuplas: seq<string> := [];
        var i := 0;
        while i < |ci|
          invariant 0 <= i <= |ci|
          invariant tuplas == Tuplas(ci[..i])
        {
          TuplasPasso(ci, i);
          tuplas := tuplas + [Tupla(ci[i].1)];
          i := i + 1;
        }
        assert ci[..i] == ci;
        valores := Join(tuplas, ", ");
      } else {
        valores := "(" + Join(ValoresTexto(ci), ", ") + ")";
      }
      r := " (" + Join(Colunas(ci), ", ") + ") VALUES " + valores;
    }
  }

  /** One clause of __toString: appended with its heading only when it has entries. */
  method AnexarClausula(q: string, cabecalho: string, itens: seq<string>, sep: string) returns (r: string)
    ensures r == q + Parte(cabecalho, itens, sep)
    ensures itens == [] ==> r == q
    ensures itens != [] ==> r == q + cabecalho + Join(itens, sep)
  {
    r := q;
    if |itens| > 0 {
      r := q + (cabecalho + Join(itens, sep));
    }
  }

  // ------------------------------------------------------------- properties

  /** With no clause and no insert values, the SQL is the base query alone. */
  lemma SqlSoConsulta(e: Estado)
    requires e.camposInsert == [] && e.join == [] && e.sets == [] && e.where == []
    requires e.groupBy == [] && e.having == [] && e.orderBy == []
    ensures Sql(e) == e.query
  {
  }

  /** Entry n of a WHERE or HAVING list starts with the validated connector exactly when an entry precedes it. */
  lemma ConectorEntrada(lista: seq<string>, conds: seq<string>, andor: string, i: nat)
    requires i < |conds|
    ensures Anexados(lista, conds, Condicao(andor))[|lista| + i] ==
      (if |lista| + i > 0 then ValidarAndOr(andor) else "") + " " + conds[i]
  {
    AnexadosEntrada(lista, conds, Condicao(andor), i);
  }

  lemma ValidarAndOrAnd()
    ensures ValidarAndOr("AND") == "AND"
  {
    assert Lower("AND") == "and";
    ValidarAndOrSpec("AND");
  }

  lemma PalavraE(x: string)
    ensures "AND" + " " + x == "AND " + x
  {
  }

  lemma ConectorJuncao(j: string, x: string)
    ensures " " + j + " " + ("AND " + x) == " " + (j + " AND " + x)
  {
  }

  /** The WHERE entries built with "AND", joined with blanks, are a blank and the conditions joined with " AND ". */
  lemma {:induction false} JoinConector(conds: seq<string>)
    requires |conds| >= 1
    ensures Join(Anexados([], conds, Condicao("AND")), " ") == " " + Join(conds, " AND ")
    decreases |conds|
  {
    var n := |conds| - 1;
    var r := Anexados([], conds, Condicao("AND"));
    if n == 0 {
      AnexadosPasso([], conds, 0, Condicao("AND"));
      assert conds[..1] == conds && conds[..0] == [];
      VazioMais(" ");
      assert r == [" " + conds[0]];
    } else {
      var init := conds[..n];
      var x := conds[n];
      JoinConector(init);
      AnexadosPasso([], conds, n, Condicao("AND"));
      assert conds[..n + 1] == conds;
      var p := Anexados([], init, Condicao("AND"));
      ValidarAndOrAnd();
      PalavraE(x);
      assert r == p + ["AND " + x];
      JoinSnoc(p, "AND " + x, " ");
      JoinSnoc(init, x, " AND ");
      UltimoSeparado(conds, n);
      ConectorJuncao(Join(init, " AND "), x);
    }
  }

  /** WHERE conditions added with "AND" to a fresh SELECT render as " WHERE  c1 AND c2 ...". */
  lemma SqlWhereAnd(q: string, conds: seq<string>)
    requires |conds| >= 1
    ensures Sql(Construcao(q, "", [], [], Anexados([], conds, Condicao("AND")), [], [], [], [], true)) ==
      q + " WHERE  " + Join(conds, " AND ")
  {
    JoinConector(conds);
    SqlWhere(q, Anexados([], conds, Condicao("AND")), Join(conds, " AND "));
  }

  lemma SqlWhere(q: string, w: seq<string>, j: string)
    requires Parte(" WHERE ", w, " ") == " WHERE " + (" " + j)
    ensures Sql(Construcao(q, "", [], [], w, [], [], [], [], true)) == q + " WHERE  " + j
  {
    var e := Construcao(q, "", [], [], w, [], [], [], [], true);
    var qw := q + (" WHERE " + (" " + j));
    SemParte(q);
    SqlPorPartes(e, q, q, q, qw, qw, qw, qw);
    WhereTexto(q, j);
  }

  lemma SemParte(q: string)
    ensures q == q + ParteInsert([]) && q == q + Parte(" ", [], " ") && q == q + Parte(" ", [], ", ")
  {
  }

  lemma WhereTexto(q: string, j: string)
    ensures q + (" WHERE " + (" " + j)) == q + " WHERE  " + j
  {
  }

  /** The values into adds keep their columns in place, so they still hold each column once. */
  lemma ExportarChaves(varExport: bool, campos: seq<(Key, Value)>)
    requires UniqueKeys(campos)
    ensures UniqueKeys(ArrayMapRecursivo(Exportar(varExport), campos))
  {
    var m := ArrayMapRecursivo(Exportar(varExport), campos);
    forall j | 0 <= j < |campos|
      ensures m[j].0 == campos[j].0
    {
      MapKeepsStructure(Exportar(varExport), campos, j);
    }
  }

  /**
   * After into, a column that was already present keeps its old value; a new scalar
   * column holds the value itself, as a SQL literal when the builder exports values.
   */
  lemma IntoColuna(antes: seq<(Key, Value)>, campos: seq<(Key, Value)>, varExport: bool, j: int)
    requires UniqueKeys(campos) && 0 <= j < |campos| && !campos[j].1.Arr?
    ensures var k := campos[j].0;
      Get(Union(antes, ArrayMapRecursivo(Exportar(varExport), campos)), k) ==
        if HasKey(antes, k) then Get(antes, k)
        else Some(if varExport then VarExportBD(campos[j].1) else campos[j].1)
  {
    var m := ArrayMapRecursivo(Exportar(varExport), campos);
    MapKeepsStructure(Exportar(varExport), campos, j);
    ExportarChaves(varExport, campos);
    GetUnique(m, j);
    GetUnion(antes, m, campos[j].0);
  }

}
