// AjdConstrutorSQL::criarInsert and ::criarUpdate (dlx/ajudantes/construtorsql.ajudante.php):
// the INSERT and UPDATE statements a record model prepares, built with a
// ConstrutorSQL whose values are not exported, so that every column is bound to
// a named placeholder ":campo". The database's answers (whether the table exists,
// and its description) are parameters.

module CriarSql {
  import opened Wrappers
  import opened Text
  import opened Values
  import opened Assoc
  import opened Vetores
  import opened AjdConstrutorSql
  import opened ClasseConstrutorSql

  /** A table description names each column once, as a database table does. */
  predicate NomesDistintos(cs: seq<Campo>)
  {
    forall i, j :: 0 <= i < j < |cs| ==> cs[i].field != cs[j].field
  }

  /** The filter of criarInsert: the primary key is left out unless it is to be inserted. */
  function ParaInsert(cs: seq<Campo>, inserirPk: bool): (r: seq<Campo>)
    ensures forall c :: c in r <==> c in cs && (inserirPk || !IsPk(c))
    decreases |cs|
  {
    if cs == [] then []
    else
      var resto := ParaInsert(cs[1..], inserirPk);
      if inserirPk || !IsPk(cs[0]) then [cs[0]] + resto else resto
  }

  /** A column of the rest of a description with distinct names is not named like its first column. */
  lemma RestoDistinto(cs: seq<Campo>, c: Campo)
    requires NomesDistintos(cs) && cs != [] && c in cs[1..]
    ensures c.field != cs[0].field && NomesDistintos(cs[1..])
  {
    var k :| 0 <= k < |cs[1..]| && cs[1..][k] == c;
    assert cs[k + 1] == c;
  }

  /** Leaving out the primary key keeps the column names distinct. */
  lemma {:induction false} ParaInsertDistinto(cs: seq<Campo>, inserirPk: bool)
    requires NomesDistintos(cs)
    ensures NomesDistintos(ParaInsert(cs, inserirPk))
    decreases |cs|
  {
    if cs != [] {
      assert NomesDistintos(cs[1..]);
      ParaInsertDistinto(cs[1..], inserirPk);
      forall c | c in ParaInsert(cs[1..], inserirPk)
        ensures c.field != cs[0].field
      {
        RestoDistinto(cs, c);
      }
    }
  }

  /** array_column(campos, 'Field'). */
  function Nomes(cs: seq<Campo>): (r: seq<string>)
    ensures |r| == |cs|
    ensures forall i :: 0 <= i < |cs| ==> r[i] == cs[i].field
    decreases |cs|
  {
    if cs == [] then [] else [cs[0].field] + Nomes(cs[1..])
  }

  /** The placeholders ":campo", one per column. */
  function Marcadores(ns: seq<string>): (r: seq<string>)
    ensures |r| == |ns|
    ensures forall i :: 0 <= i < |ns| ==> r[i] == ":" + ns[i]
    decreases |ns|
  {
    if ns == [] then [] else [":" + ns[0]] + Marcadores(ns[1..])
  }

  /** array_combine(campos, placeholders). */
  function Pares(ns: seq<string>): (r: seq<(Key, Value)>)
    ensures |r| == |ns|
    ensures forall i :: 0 <= i < |ns| ==> r[i] == (StrKey(ns[i]), Str(":" + ns[i]))
    decreases |ns|
  {
    if ns == [] then [] else [(StrKey(ns[0]), Str(":" + ns[0]))] + Pares(ns[1..])
  }

  /** The statement criarInsert promises: every selected column bound to its placeholder. */
  function InsertSql(tabela: string, ns: seq<string>): string
  {
    "INSERT INTO " + tabela +
    (if ns == [] then "" else " (" + Join(ns, ", ") + ") VALUES (" + Join(Marcadores(ns), ", ") + ")")
  }

  /** "campo = :campo". */
  function Vinculo(f: string): string
  {
    f + " = :" + f
  }

  /** The SET assignments of criarUpdate: one per column that is not a primary key, in order. */
  function Atribuicoes(cs: seq<Campo>): (r: seq<string>)
    ensures |r| <= |cs|
    decreases |cs|
  {
    if cs == [] then []
    else
      var u := cs[|cs| - 1];
      Atribuicoes(cs[..|cs| - 1]) + (if IsPk(u) then [] else [Vinculo(u.field)])
  }

  /** The WHERE conditions of criarUpdate: one per primary-key column, in order. */
  function CondicoesPk(cs: seq<Campo>): (r: seq<string>)
    ensures |r| <= |cs|
    decreases |cs|
  {
    if cs == [] then []
    else
      var u := cs[|cs| - 1];
      CondicoesPk(cs[..|cs| - 1]) + (if IsPk(u) then [Vinculo(u.field)] else [])
  }

  /**
   * The statement criarUpdate promises: the assignments after SET, and the key
   * conditions joined with AND after WHERE (the first condition keeps the blank
   * the builder puts before it, so WHERE is followed by two blanks).
   */
  function UpdateSql(tabela: string, cs: seq<Campo>): string
  {
    var a := Atribuicoes(cs);
    var p := CondicoesPk(cs);
    "UPDATE " + tabela + " SET" +
    (if a == [] then "" else " " + Join(a, ", ")) +
    (if p == [] then "" else " WHERE  " + Join(p, " AND "))
  }

  // ------------------------------------------------------------ criarInsert

  lemma ComecaInsert(tabela: string)
    ensures EInsert("INSERT INTO " + tabela)
  {
    assert ("INSERT INTO " + tabela)[..6] == "INSERT";
  }

  lemma ComecaUpdate(tabela: string)
    ensures EUpdate("UPDATE " + tabela + " SET") && AceitaWhere("UPDATE " + tabela + " SET")
  {
    assert ("UPDATE " + tabela + " SET")[..6] == "UPDATE";
  }

  lemma NomesUnicos(ns: seq<string>)
    requires forall i, j :: 0 <= i < j < |ns| ==> ns[i] != ns[j]
    ensures UniqueKeys(Pares(ns))
  {
  }

  /** The placeholders are scalars, so the mapping of into leaves them as they are and the array is not multidimensional. */
  lemma ParesPlanos(ns: seq<string>)
    ensures ArrayMapRecursivo(Exportar(false), Pares(ns)) == Pares(ns)
    ensures !ArrayMulti(Pares(ns))
  {
    var p := Pares(ns);
    MapIdentity(Exportar(false), Arr(p), 0);
    assert p[0..] == p;
    ArrayMultiIff(p);
  }

  lemma ParesTexto(ns: seq<string>)
    ensures ChavesTexto(Pares(ns)) == ns
    ensures ValoresTexto(Pares(ns)) == Marcadores(ns)
  {
  }

  /** The INSERT builder criarInsert ends with renders as InsertSql. */
  lemma InsertRenderizado(tabela: string, ns: seq<string>)
    ensures Sql(Construcao("INSERT INTO " + tabela, tabela, Pares(ns), [], [], [], [], [], [], false)) ==
      InsertSql(tabela, ns)
  {
    var p := Pares(ns);
    var q := "INSERT INTO " + tabela;
    var e := Construcao(q, tabela, p, [], [], [], [], [], [], false);
    var pi := ParteInsert(p);
    if ns != [] {
      ParesPlanos(ns);
      ParesTexto(ns);
      assert Colunas(p) == ns;
      assert pi == " (" + Join(ns, ", ") + ") VALUES " + ("(" + Join(Marcadores(ns), ", ") + ")");
      InsertTexto(Join(ns, ", "), Join(Marcadores(ns), ", "));
    }
    SemParte(q + pi);
    SqlPorPartes(e, q + pi, q + pi, q + pi, q + pi, q + pi, q + pi, q + pi);
  }

  lemma InsertTexto(a: string, b: string)
    ensures " (" + a + ") VALUES " + ("(" + b + ")") == " (" + a + ") VALUES (" + b + ")"
  {
  }

  /**
   * criarInsert: a table the database does not have throws insert's 1404; otherwise the
   * selected, admissible columns and the INSERT binding each to ":campo" (each of them is in
   * the description, so into's field checks pass).
   */
  method CriarInsert(tabela: string, existe: bool, inserirPk: bool, info: seq<Campo>, incluir: seq<string>, excluir: seq<string>)
    returns (r: Outcome<(string, seq<string>)>)
    requires NomesDistintos(info)
    ensures !existe ==> r == Falha(TabelaExiste(existe, tabela))
    ensures existe ==> r.Ok? && r.value.1 == Nomes(ParaInsert(FiltrarCamposTabela(info, incluir, excluir), inserirPk))
    ensures r.Ok? ==> r.value.0 == InsertSql(tabela, r.value.1)
  {
    FiltroDistinto(info, incluir, excluir);
    ParaInsertDistinto(FiltrarCamposTabela(info, incluir, excluir), inserirPk);
    var campos := Nomes(ParaInsert(FiltrarCamposTabela(info, incluir, excluir), inserirPk));
    var construtor := new ConstrutorSQL(false);
    var o := construtor.Insert(tabela, existe);
    if o.Throw? {
      return Falha(TabelaExiste(existe, tabela));
    }
    var insert := o.value;
    ComecaInsert(tabela);
    NomesUnicos(campos);
    ParesPlanos(campos);
    CamposDaDescricao(info, incluir, excluir, inserirPk, tabela);
    var ok := insert.Into(Pares(campos), info);
    UnionEmpty(Pares(campos));
    var query := insert.ToString();
    InsertRenderizado(tabela, campos);
    r := Ok((query, campos));
  }

  /** The keys a flat array hands to arrayMapRecursivo's callback are its own keys, in order. */
  lemma {:induction false} ChavesPlanas(v: Value, i: nat)
    requires v.Arr? && i <= |v.entries|
    requires forall j :: 0 <= j < |v.entries| ==> !v.entries[j].1.Arr?
    ensures |ChavesFolhas(v, i)| == |v.entries| - i
    ensures forall j :: 0 <= j < |v.entries| - i ==> ChavesFolhas(v, i)[j] == v.entries[i + j].0
    decreases |v.entries| - i
  {
    if i < |v.entries| {
      ChavesPlanas(v, i + 1);
    }
  }

  /** Every column criarInsert binds is in the table's description, so into's checks all pass. */
  lemma CamposDaDescricao(info: seq<Campo>, incluir: seq<string>, excluir: seq<string>, inserirPk: bool, tabela: string)
    ensures var ns := Nomes(ParaInsert(FiltrarCamposTabela(info, incluir, excluir), inserirPk));
      CamposExistem(info, ChavesFolhas(Arr(Pares(ns)), 0), tabela).Ok?
  {
    var cs := ParaInsert(FiltrarCamposTabela(info, incluir, excluir), inserirPk);
    var ns := Nomes(cs);
    var v := Arr(Pares(ns));
    ChavesPlanas(v, 0);
    var ks := ChavesFolhas(v, 0);
    forall t | 0 <= t < |ks| ensures CampoExiste(info, KeyText(ks[t]), tabela).Ok? {
      assert ks[t] == StrKey(ns[t]);
      assert cs[t] in cs && cs[t] in info && cs[t].field == ns[t];
    }
  }

  /** Filtering a table description keeps its column names distinct. */
  lemma {:induction false} FiltroDistinto(info: seq<Campo>, incluir: seq<string>, excluir: seq<string>)
    requires NomesDistintos(info)
    ensures NomesDistintos(FiltrarCamposTabela(info, incluir, excluir))
    decreases |info|
  {
    if info != [] {
      assert NomesDistintos(info[1..]);
      FiltroDistinto(info[1..], incluir, excluir);
      var r := FiltrarCamposTabela(info[1..], incluir, excluir);
      forall c | c in r
        ensures c.field != info[0].field
      {
        RestoDistinto(info, c);
      }
    }
  }

  // ------------------------------------------------------------ criarUpdate

  lemma AtribuicoesPasso(cs: seq<Campo>, i: nat)
    requires i < |cs|
    ensures Atribuicoes(cs[..i + 1]) == Atribuicoes(cs[..i]) + (if IsPk(cs[i]) then [] else [Vinculo(cs[i].field)])
    ensures CondicoesPk(cs[..i + 1]) == CondicoesPk(cs[..i]) + (if IsPk(cs[i]) then [Vinculo(cs[i].field)] else [])
  {
    assert cs[..i + 1][..i] == cs[..i];
  }

  /** The state of the UPDATE builder after the first columns of criarUpdate's loop. */
  function EstadoUpdate(tabela: string, cs: seq<Campo>): Estado
  {
    Construcao("UPDATE " + tabela + " SET", tabela, [], [], Anexados([], CondicoesPk(cs), Condicao("AND")),
      [], [], [], Atribuicoes(cs), false)
  }

  /** A primary-key column adds its condition to WHERE, joined with AND. */
  lemma PassoWhere(tabela: string, cs: seq<Campo>, i: nat)
    requires i < |cs| && IsPk(cs[i])
    ensures var e := EstadoUpdate(tabela, cs[..i]);
      AceitaWhere(e.query) &&
      e.(where := Anexados(e.where, Itens(Um(Vinculo(cs[i].field))), Condicao("AND"))) == EstadoUpdate(tabela, cs[..i + 1])
  {
    var c := Vinculo(cs[i].field);
    var p := CondicoesPk(cs[..i]);
    ComecaUpdate(tabela);
    AtribuicoesPasso(cs, i);
    AnexadosSnoc([], p, c, Condicao("AND"));
    var w := Anexados([], p, Condicao("AND"));
    AnexadosSnoc(w, [], c, Condicao("AND"));
    assert [] + [c] == [c];
  }

  /** Any other column adds its assignment to SET. */
  lemma PassoSet(tabela: string, cs: seq<Campo>, i: nat)
    requires i < |cs| && !IsPk(cs[i])
    ensures var e := EstadoUpdate(tabela, cs[..i]);
      EUpdate(e.query) &&
      e.(sets := e.sets + [cs[i].field + " = " + ValorSet(false, ":" + cs[i].field)]) == EstadoUpdate(tabela, cs[..i + 1])
  {
    ComecaUpdate(tabela);
    AtribuicoesPasso(cs, i);
    VinculoTexto(cs[i].field);
    assert ValorSet(false, ":" + cs[i].field) == ":" + cs[i].field;
    assert CondicoesPk(cs[..i]) + [] == CondicoesPk(cs[..i]);
  }

  lemma VinculoTexto(f: string)
    ensures f + " = " + (":" + f) == Vinculo(f)
  {
  }

  /** The UPDATE builder criarUpdate ends with renders as UpdateSql. */
  lemma UpdateRenderizado(tabela: string, cs: seq<Campo>)
    ensures Sql(EstadoUpdate(tabela, cs)) == UpdateSql(tabela, cs)
  {
    var e := EstadoUpdate(tabela, cs);
    var a := Atribuicoes(cs);
    var p := CondicoesPk(cs);
    var q := "UPDATE " + tabela + " SET";
    var qs := q + Parte(" ", a, ", ");
    var qw := qs + Parte(" WHERE ", e.where, " ");
    SemParte(q);
    SqlPorPartes(e, q, q, qs, qw, qw, qw, qw);
    if p != [] {
      JoinConector(p);
      WhereTexto(qs, Join(p, " AND "));
    }
  }

  /**
   * criarUpdate: a table the database does not have throws update's 1404; otherwise the
   * selected columns, assigned in SET unless they are a primary key, which goes to WHERE
   * (each of them is in the description, so set's field checks pass).
   */
  method CriarUpdate(tabela: string, existe: bool, info: seq<Campo>, incluir: seq<string>, excluir: seq<string>)
    returns (r: Outcome<(string, seq<Campo>)>)
    ensures !existe ==> r == Falha(TabelaExiste(existe, tabela))
    ensures existe ==> r.Ok? && r.value.1 == FiltrarCamposTabela(info, incluir, excluir)
    ensures r.Ok? ==> r.value.0 == UpdateSql(tabela, r.value.1)
  {
    var campos := FiltrarCamposTabela(info, incluir, excluir);
    var construtor := new ConstrutorSQL(false);
    var o := construtor.Update(tabela, existe);
    if o.Throw? {
      return Falha(TabelaExiste(existe, tabela));
    }
    var update := o.value;
    ComecaUpdate(tabela);
    var i := 0;
    while i < |campos|
      invariant 0 <= i <= |campos|
      invariant update.Estado() == EstadoUpdate(tabela, campos[..i])
    {
      var campo := campos[i];
      if IsPk(campo) {
        PassoWhere(tabela, campos, i);
        update.Where(Um(Vinculo(campo.field)), "AND");
      } else {
        PassoSet(tabela, campos, i);
        assert campo in campos && campo in info;
        var ok := update.Set(campo.field, ":" + campo.field, info);
      }
      i := i + 1;
    }
    assert campos[..i] == campos;
    var query := update.ToString();
    UpdateRenderizado(tabela, campos);
    r := Ok((query, campos));
  }
}
