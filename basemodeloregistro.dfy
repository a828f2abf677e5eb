// Geral\Modelos\BaseModeloRegistro and its traits RegistroConsulta and
// RegistroEdicao (_auto/modelos/basemodeloregistro.modelo.php): the record
// model. A record is empty (reg_vazio) until a row is selected into it; saving
// an empty record inserts it and saving a loaded one updates it; deleting falls
// back to marking it deleted. The database is an oracle: the row a SELECT
// fetches, the primary-key columns of the table, its description and whether
// a statement succeeds are parameters.

module ModeloRegistro {
  import opened Wrappers
  import opened Text
  import opened Values
  import opened Assoc
  import opened Vetores
  import opened AjdConstrutorSql
  import opened ClasseConstrutorSql
  import opened CriarSql
  import Pdodl

  /** The object's properties by name, in declaration order. */
  type Propriedades = seq<(string, Value)>

  /** What salvar and excluir give back: the statement and its bound data, a value, or the primary key. */
  datatype Resposta = Consulta(query: string, dados: seq<(string, Value)>) | Valor(v: Value) | ChavePrimaria(pk: seq<(string, Value)>)

  /** The properties BaseModeloRegistro declares, with their defaults. */
  const PADRAO: Propriedades := [("id", Null), ("idioma", Str("br")), ("publicar", Bool(true)), ("delete", Bool(false))]

  const MSG_SALVAR := "A instrução SQL de INSERT ou UPDATE não pode ser executada:<br/>%s"
  const MSG_EXCLUIR := "Registro não selecionado!"

  /** filter_var with FILTER_FLAG_EMPTY_STRING_NULL: the empty string becomes null. */
  function Filtrado(s: Option<string>): (r: Option<string>)
    ensures r.Some? ==> r.value != ""
    ensures s.Some? && s.value != "" ==> r == s
  {
    if s.Some? && s.value != "" then s else None
  }

  /** A possibly null string inside a double-quoted PHP string. */
  function Texto(s: Option<string>): string
  {
    match s
    case Some(t) => t
    case None => ""
  }

  /** The property a column belongs to: its name without the table prefix. */
  function NomePropriedade(campo: string, prefixo: Option<string>): string
  {
    match prefixo
    case Some(p) => Pdodl.SemPrefixo(campo, p)
    case None => campo
  }

  /** `$this->{$nome}`, null for a property the object lacks. */
  function Prop(props: Propriedades, nome: string): Value
  {
    match Get(props, nome)
    case Some(v) => v
    case None => Null
  }

  /** The state of a record, field by field. */
  datatype EstadoRegistro = EstadoRegistro(
    tabela: Option<string>, prefixo: Option<string>, regVazio: bool, insertPk: bool,
    props: Propriedades, lista: Estado)

  // ------------------------------------------------------------- queries

  /** The WHERE part of a builder whose conditions were all added with "AND". */
  function WhereE(conds: seq<string>): string
  {
    if conds == [] then "" else " WHERE  " + Join(conds, " AND ")
  }

  /** The condition selecionarUK writes for one unique-key column. */
  function CondicaoUK(prefixo: string, par: (string, Value)): string
  {
    prefixo + par.0 + " = " + ValueText(VarExportBD(par.1))
  }

  function CondicoesUK(prefixo: string, valores: seq<(string, Value)>): (r: seq<string>)
    ensures |r| == |valores|
    ensures forall i :: 0 <= i < |valores| ==> r[i] == CondicaoUK(prefixo, valores[i])
  {
    seq(|valores|, i requires 0 <= i < |valores| => CondicaoUK(prefixo, valores[i]))
  }

  /** The SELECT selecionarUK sends: every given column equal to its exported value. */
  function ConsultaUK(tabela: string, prefixo: string, valores: seq<(string, Value)>): string
  {
    "SELECT * FROM " + tabela + WhereE(CondicoesUK(prefixo, valores))
  }

  function Vinculos(pk: seq<string>): (r: seq<string>)
    ensures |r| == |pk|
    ensures forall i :: 0 <= i < |pk| ==> r[i] == Vinculo(pk[i])
  {
    seq(|pk|, i requires 0 <= i < |pk| => Vinculo(pk[i]))
  }

  /** The DELETE excluir sends: every primary-key column bound to its placeholder. */
  function ConsultaExcluir(tabela: string, pk: seq<string>): string
  {
    "DELETE FROM " + tabela + WhereE(Vinculos(pk))
  }

  /** The builder state the model keeps for its lists: SELECT __CAMPOS__ of the rows not marked deleted. */
  function ListaPadrao(tabela: string, prefixo: string): Estado
  {
    Construcao("SELECT __CAMPOS__ FROM " + tabela, tabela, [], [], [" " + prefixo + "delete = 0"], [], [], [], [], true)
  }

  // ------------------------------------------------------------- loading

  /** The assignments selecionarUK makes: each column of the row into the property its name gives. */
  function ParaPropriedades(linha: seq<(string, Value)>, prefixo: Option<string>): (r: Propriedades)
    ensures |r| == |linha|
    ensures forall i :: 0 <= i < |linha| ==> r[i] == (NomePropriedade(linha[i].0, prefixo), linha[i].1)
  {
    seq(|linha|, i requires 0 <= i < |linha| => (NomePropriedade(linha[i].0, prefixo), linha[i].1))
  }

  /** The properties after a row is loaded. */
  function Carregado(props: Propriedades, prefixo: Option<string>, linha: seq<(string, Value)>): Propriedades
  {
    PutAll(props, ParaPropriedades(linha, prefixo))
  }

  /** (array)$valores: an array's values, any other value as the single element. */
  function ComoLista(v: Value): seq<Value>
  {
    match v
    case Arr(e) => Assoc.Values(e)
    case Obj(f) => Assoc.Values(f)
    case _ => [v]
  }

  /** array_combine of PK names and values. */
  function Combinar(ks: seq<string>, vs: seq<Value>): (r: seq<(string, Value)>)
    requires |ks| == |vs|
    ensures |r| == |ks|
    ensures forall i :: 0 <= i < |ks| ==> r[i] == (ks[i], vs[i])
  {
    seq(|ks|, i requires 0 <= i < |ks| => (ks[i], vs[i]))
  }

  // ---------------------------------------------------------- primary key

  function ParesPk(campos: seq<string>, props: Propriedades): (r: seq<(string, Value)>)
    ensures |r| == |campos|
    ensures forall i :: 0 <= i < |campos| ==> r[i] == (campos[i], Prop(props, campos[i]))
  {
    seq(|campos|, i requires 0 <= i < |campos| => (campos[i], Prop(props, campos[i])))
  }

  /** obterValorPK: each PK property by name for a record with a table, else ':id' from getID. */
  function ValorPK(tabela: string, prefixo: Option<string>, props: Propriedades, pk: seq<string>): seq<(string, Value)>
  {
    if !Empty(Str(tabela)) then PutAll([], ParesPk(Pdodl.IdentificaPK(pk, prefixo), props))
    else [(":id", Prop(props, "id"))]
  }

  // --------------------------------------------------------------- saving

  /** The statement salvar prepares and the columns it binds: INSERT for an empty record, UPDATE otherwise. */
  function ConsultaSalvar(vazio: bool, tabela: string, inserirPk: bool, info: seq<Campo>, incluir: seq<string>, excluir: seq<string>): (string, seq<string>)
  {
    var cs := FiltrarCamposTabela(info, incluir, excluir);
    if vazio then
      var ns := Nomes(ParaInsert(cs, inserirPk));
      (InsertSql(tabela, ns), ns)
    else (UpdateSql(tabela, cs), Nomes(cs))
  }

  /** The data bindings salvar makes: ':campo' for each column whose property exists. */
  function Vinculados(campos: seq<string>, props: Propriedades, prefixo: Option<string>): seq<(string, Value)>
    decreases |campos|
  {
    if campos == [] then []
    else
      var c := campos[|campos| - 1];
      var nome := NomePropriedade(c, prefixo);
      Vinculados(campos[..|campos| - 1], props, prefixo) + (if HasKey(props, nome) then [(":" + c, Prop(props, nome))] else [])
  }

  function DadosSalvar(campos: seq<string>, props: Propriedades, prefixo: Option<string>): seq<(string, Value)>
  {
    PutAll([], Vinculados(campos, props, prefixo))
  }

  /** The data excluir binds: ':campo' for each primary-key column, its property's value. */
  function ParesExcluir(pk: seq<string>, props: Propriedades, prefixo: Option<string>): (r: seq<(string, Value)>)
    ensures |r| == |pk|
    ensures forall i :: 0 <= i < |pk| ==> r[i] == (":" + pk[i], Prop(props, NomePropriedade(pk[i], prefixo)))
  {
    seq(|pk|, i requires 0 <= i < |pk| => (":" + pk[i], Prop(props, NomePropriedade(pk[i], prefixo))))
  }

  class Registro {
    var tabela: Option<string>
    var prefixo: Option<string>
    var regVazio: bool
    var insertPk: bool
    var props: Propriedades
    var lista: Estado

    function Estado(): EstadoRegistro
      reads this
    {
      EstadoRegistro(tabela, prefixo, regVazio, insertPk, props, lista)
    }

    function Tabela(): string
      reads this
    {
      Texto(tabela)
    }

    function Prefixo(): string
      reads this
    {
      Texto(prefixo)
    }

    /** A new, empty record of the table, with the declared properties and those of the concrete model. */
    constructor (tabela: string, prefixo: Option<string>, insertPk: bool, proprias: Propriedades)
      ensures Estado() == EstadoRegistro(Filtrado(Some(tabela)), Filtrado(prefixo), true, insertPk, PADRAO + proprias,
        ListaPadrao(Texto(Filtrado(Some(tabela))), Texto(Filtrado(prefixo))))
    {
      this.tabela := Filtrado(Some(tabela));
      this.prefixo := Filtrado(prefixo);
      this.insertPk := insertPk;
      regVazio := true;
      props := PADRAO + proprias;
      lista := Construcao("", "", [], [], [], [], [], [], [], true);
      new;
      var t := Tabela();
      var p := Prefixo();
      var sql := new ConstrutorSQL(true);
      var o := sql.Select(t, "", "__CAMPOS__", true);
      var select := o.value;
      ComecaSelect(t);
      AnexadoUnico(p + "delete = 0", "");
      SemAlias("SELECT __CAMPOS__ FROM " + t);
      assert select.Estado().where == [] && select.query == "SELECT __CAMPOS__ FROM " + t;
      select.Where(Um(p + "delete = 0"), "");
      Assoc3(" ", p, "delete = 0");
      assert select.where == [" " + p + "delete = 0"];
      assert select.tabela == t;
      lista := select.Estado();
      assert lista == ListaPadrao(t, p);
    }

    /**
     * selecionarUK: the SELECT by the given columns is sent; a fetched row is
     * loaded into the properties and the record is no longer empty; without a
     * row the record is empty and its properties are kept.
     */
    method SelecionarUK(valores: seq<(string, Value)>, linha: Option<seq<(string, Value)>>) returns (ok: bool, consulta: string)
      modifies this
      ensures consulta == ConsultaUK(old(Tabela()), old(Prefixo()), valores)
      ensures ok == linha.Some?
      ensures Estado() == old(Estado()).(regVazio := !ok,
        props := if linha.Some? then Carregado(old(props), old(prefixo), linha.value) else old(props))
    {
      consulta := SelectUK(Tabela(), Prefixo(), valores);
      if linha.Some? {
        var l := linha.value;
        ghost var atribuicoes := ParaPropriedades(l, prefixo);
        var ps := props;
        var i := 0;
        while i < |l|
          invariant 0 <= i <= |l|
          invariant unchanged(this)
          invariant ps == PutAll(props, atribuicoes[..i])
        {
          PutAllSnoc(props, atribuicoes, i);
          ps := Put(ps, NomePropriedade(l[i].0, prefixo), l[i].1);
          i := i + 1;
        }
        assert atribuicoes[..i] == atribuicoes;
        props := ps;
        regVazio := false;
        ok := true;
      } else {
        regVazio := true;
        ok := false;
      }
    }

    /**
     * selecionarPK: without values nothing happens and the answer is true; a
     * number of values other than the number of PK columns is refused; otherwise
     * the record is selected by its PK columns (prefix stripped) and values.
     */
    method SelecionarPK(valores: Value, pk: seq<string>, linha: Option<seq<(string, Value)>>) returns (ok: bool, consulta: Option<string>)
      modifies this
      ensures valores.Null? ==> ok && consulta.None? && Estado() == old(Estado())
      ensures !valores.Null? && |pk| != |ComoLista(valores)| ==> !ok && consulta.None? && Estado() == old(Estado())
      ensures !valores.Null? && |pk| == |ComoLista(valores)| ==>
        var uk := Combinar(Pdodl.IdentificaPK(pk, old(prefixo)), ComoLista(valores));
        consulta == Some(ConsultaUK(old(Tabela()), old(Prefixo()), uk)) && ok == linha.Some? &&
        Estado() == old(Estado()).(regVazio := !ok,
          props := if linha.Some? then Carregado(old(props), old(prefixo), linha.value) else old(props))
    {
      if valores.Null? {
        return true, None;
      }
      var vs := ComoLista(valores);
      var campos := Pdodl.IdentificaPK(pk, prefixo);
      if |campos| == |vs| {
        var q;
        ok, q := SelecionarUK(Combinar(campos, vs), linha);
        consulta := Some(q);
      } else {
        ok, consulta := false, None;
      }
    }

    /** obterValorPK. */
    method ObterValorPK(pk: seq<string>) returns (r: seq<(string, Value)>)
      ensures r == ValorPK(Tabela(), prefixo, props, pk)
    {
      if !Empty(Str(Tabela())) {
        var campos := Pdodl.IdentificaPK(pk, prefixo);
        ghost var pares := ParesPk(campos, props);
        r := [];
        var i := 0;
        while i < |campos|
          invariant 0 <= i <= |campos|
          invariant r == PutAll([], pares[..i])
        {
          PutAllSnoc([], pares, i);
          r := Put(r, campos[i], Prop(props, campos[i]));
          i := i + 1;
        }
        assert pares[..i] == pares;
      } else {
        r := [(":id", Prop(props, "id"))];
      }
    }

    /**
     * salvar: a table the database does not have throws 1404 and nothing changes.
     * Otherwise the INSERT (empty record) or UPDATE (loaded record) of the
     * selected columns with the data bound to their placeholders. Without
     * executing, the statement and the data are returned and nothing changes; a
     * statement the database refuses throws 1500; an INSERT stores and returns
     * the new id, an UPDATE returns the current one.
     */
    method Salvar(executar: bool, incluir: seq<string>, excluir: seq<string>, inserirPk: Option<bool>,
                  existe: bool, info: seq<Campo>, execOk: bool, novoId: Value) returns (r: Outcome<Resposta>)
      requires NomesDistintos(info)
      modifies this
      ensures !existe ==> r == Falha(TabelaExiste(false, old(Tabela()))) && Estado() == old(Estado())
      ensures var q := ConsultaSalvar(old(regVazio), old(Tabela()), inserirPk.GetOr(old(insertPk)), info, incluir, excluir);
        existe && !executar ==> r == Ok(Consulta(q.0, DadosSalvar(q.1, old(props), old(prefixo)))) && Estado() == old(Estado())
      ensures existe && executar && !execOk ==> r == Throw(1500, MSG_SALVAR) && Estado() == old(Estado())
      ensures existe && executar && execOk && old(regVazio) ==>
        r == Ok(Valor(novoId)) && Estado() == old(Estado()).(props := Put(old(props), "id", novoId))
      ensures existe && executar && execOk && !old(regVazio) ==> r == Ok(Valor(Prop(old(props), "id"))) && Estado() == old(Estado())
    {
      var p := PrepararSalvar(regVazio, Tabela(), existe, inserirPk.GetOr(insertPk), info, incluir, excluir);
      if p.Throw? {
        return Falha(TabelaExiste(existe, Tabela()));
      }
      var (q, campos) := p.value;
      var dados := VincularDados(campos, props, prefixo);
      if !executar {
        return Ok(Consulta(q, dados));
      }
      if !execOk {
        return Throw(1500, MSG_SALVAR);
      }
      if StartsWith(q, "INSERT") {
        props := Put(props, "id", novoId);
        r := Ok(Valor(novoId));
      } else {
        r := Ok(Valor(Prop(props, "id")));
      }
    }

    /**
     * excluir: an empty record throws 1403. Otherwise the DELETE by primary key
     * and its data; executed, a refused DELETE of a record with a `delete`
     * property marks it deleted and saves it instead. The answer is false when
     * nothing succeeded, else the primary key.
     */
    method Excluir(executar: bool, pk: seq<string>, info: seq<Campo>, execOk: bool, salvarOk: bool) returns (r: Outcome<Resposta>)
      requires NomesDistintos(info)
      modifies this
      ensures old(regVazio) ==> r == Throw(1403, MSG_EXCLUIR) && Estado() == old(Estado())
      ensures !old(regVazio) && !executar ==>
        r == Ok(Consulta(ConsultaExcluir(old(Tabela()), pk), PutAll([], ParesExcluir(pk, old(props), old(prefixo))))) &&
        Estado() == old(Estado())
      ensures !old(regVazio) && executar && execOk ==>
        r == Ok(ChavePrimaria(ValorPK(old(Tabela()), old(prefixo), old(props), pk))) && Estado() == old(Estado())
      ensures !old(regVazio) && executar && !execOk && !HasKey(old(props), "delete") ==>
        r == Ok(Valor(Bool(false))) && Estado() == old(Estado())
      ensures !old(regVazio) && executar && !execOk && HasKey(old(props), "delete") ==>
        var marcado := Put(old(props), "delete", Int(1));
        Estado() == old(Estado()).(props := marcado) &&
        r == (if !salvarOk then Throw(1500, MSG_SALVAR)
              else if Empty(Prop(old(props), "id")) then Ok(Valor(Bool(false)))
              else Ok(ChavePrimaria(ValorPK(old(Tabela()), old(prefixo), marcado, pk))))
    {
      if regVazio {
        return Throw(1403, MSG_EXCLUIR);
      }
      var q, dados := MontarExcluir(Tabela(), pk, props, prefixo);
      if !executar {
        return Ok(Consulta(q, dados));
      }
      if execOk {
        var v := ObterValorPK(pk);
        return Ok(ChavePrimaria(v));
      }
      if !HasKey(props, "delete") {
        return Ok(Valor(Bool(false)));
      }
      props := Put(props, "delete", Int(1));
      GetPut(old(props), "delete", Int(1), "id");
      var s := Salvar(true, pk + [Prefixo() + "delete"], [], None, true, info, salvarOk, Null);
      if s.Throw? {
        return s;
      }
      var exec := s.value.v;
      if Empty(exec) {
        r := Ok(Valor(Bool(false)));
      } else {
        var v := ObterValorPK(pk);
        r := Ok(ChavePrimaria(v));
      }
    }
  }

  /** The DELETE statement of excluir and its bound values, built with the query builder. */
  method MontarExcluir(tabela: string, pk: seq<string>, props: Propriedades, prefixo: Option<string>)
    returns (q: string, dados: seq<(string, Value)>)
    ensures q == ConsultaExcluir(tabela, pk)
    ensures dados == PutAll([], ParesExcluir(pk, props, prefixo))
  {
    var sql := new ConstrutorSQL(true);
    var o := sql.Delete(tabela, true);
    var delete := o.value;
    ComecaDelete(tabela);
    ghost var conds := Vinculos(pk);
    ghost var pares := ParesExcluir(pk, props, prefixo);
    dados := [];
    var i := 0;
    while i < |pk|
      invariant 0 <= i <= |pk|
      invariant delete.Estado() == Construcao("DELETE FROM " + tabela, tabela, [], [], Anexados([], conds[..i], Condicao("AND")), [], [], [], [], true)
      invariant dados == PutAll([], pares[..i])
    {
      AnexadosPasso([], conds, i, Condicao("AND"));
      AnexadosFora(conds[..i]);
      delete.Where(Um(Vinculo(pk[i])), "AND");
      PutAllSnoc([], pares, i);
      dados := Put(dados, ":" + pk[i], Prop(props, NomePropriedade(pk[i], prefixo)));
      i := i + 1;
    }
    assert conds[..i] == conds;
    assert pares[..i] == pares;
    q := delete.ToString();
    SqlComWhere("DELETE FROM " + tabela, tabela, conds);
  }

  // ------------------------------------------------------ building queries

  /**
   * The statement of salvar: criarInsert for an empty record, criarUpdate otherwise; either
   * throws 1404 when the database does not have the table.
   */
  method PrepararSalvar(vazio: bool, tabela: string, existe: bool, inserirPk: bool, info: seq<Campo>, incluir: seq<string>, excluir: seq<string>)
    returns (r: Outcome<(string, seq<string>)>)
    requires NomesDistintos(info)
    ensures !existe ==> r == Falha(TabelaExiste(existe, tabela))
    ensures existe ==> r == Ok(ConsultaSalvar(vazio, tabela, inserirPk, info, incluir, excluir))
    ensures r.Ok? ==> (StartsWith(r.value.0, "INSERT") <==> vazio)
  {
    if vazio {
      r := CriarInsert(tabela, existe, inserirPk, info, incluir, excluir);
      if r.Ok? {
        InsertComeca(tabela, r.value.1);
      }
    } else {
      var u := CriarUpdate(tabela, existe, info, incluir, excluir);
      if u.Throw? {
        return Falha(TabelaExiste(existe, tabela));
      }
      UpdateComeca(tabela, u.value.1);
      r := Ok((u.value.0, Nomes(u.value.1)));
    }
  }

  /** The foreach of salvar that fills $dados. */
  method VincularDados(campos: seq<string>, props: Propriedades, prefixo: Option<string>) returns (dados: seq<(string, Value)>)
    ensures dados == DadosSalvar(campos, props, prefixo)
  {
    dados := [];
    var i := 0;
    while i < |campos|
      invariant 0 <= i <= |campos|
      invariant dados == PutAll([], Vinculados(campos[..i], props, prefixo))
    {
      var nome := NomePropriedade(campos[i], prefixo);
      VinculadosPasso(campos, props, prefixo, i);
      if HasKey(props, nome) {
        PutAllSnocUm([], Vinculados(campos[..i], props, prefixo), (":" + campos[i], Prop(props, nome)));
        dados := Put(dados, ":" + campos[i], Prop(props, nome));
      }
      i := i + 1;
    }
    assert campos[..i] == campos;
  }

  /** The SELECT of selecionarUK, built with a ConstrutorSQL. */
  method SelectUK(tabela: string, prefixo: string, valores: seq<(string, Value)>) returns (q: string)
    ensures q == ConsultaUK(tabela, prefixo, valores)
  {
    var sql := new ConstrutorSQL(true);
    var o := sql.Select(tabela, "", "*", true);
    var select := o.value;
    ComecaSelect(tabela);
    ghost var conds := CondicoesUK(prefixo, valores);
    var i := 0;
    while i < |valores|
      invariant 0 <= i <= |valores|
      invariant select.Estado() == Construcao("SELECT * FROM " + tabela, tabela, [], [], Anexados([], conds[..i], Condicao("AND")), [], [], [], [], true)
    {
      AnexadosPasso([], conds, i, Condicao("AND"));
      AnexadosFora(conds[..i]);
      select.Where(Um(CondicaoUK(prefixo, valores[i])), "AND");
      i := i + 1;
    }
    assert conds[..i] == conds;
    q := select.ToString();
    SqlComWhere("SELECT * FROM " + tabela, tabela, conds);
  }

  // ---------------------------------------------------------------- lemmas

  lemma ComecaSelect(tabela: string)
    ensures AceitaWhere("SELECT * FROM " + tabela) && AceitaWhere("SELECT __CAMPOS__ FROM " + tabela)
  {
    assert ("SELECT * FROM " + tabela)[..6] == "SELECT";
    assert ("SELECT __CAMPOS__ FROM " + tabela)[..6] == "SELECT";
  }

  lemma ComecaDelete(tabela: string)
    ensures AceitaWhere("DELETE FROM " + tabela)
  {
    assert ("DELETE FROM " + tabela)[..6] == "DELETE";
  }

  lemma AnexadoUnico(x: string, andor: string)
    ensures Anexados([], [x], Condicao(andor)) == [" " + x]
  {
    assert [x][..0] == [];
    assert Anexados([], [x][..0], Condicao(andor)) == [];
    assert "" + " " == " ";
    assert Entrada(Condicao(andor), 0, x) == " " + x;
    assert Anexados([], [x], Condicao(andor)) == [] + [Entrada(Condicao(andor), 0, x)];
  }

  /** Wrapping a single argument changes nothing in the list it appends. */
  lemma AnexadosFora(feitos: seq<string>)
    ensures |Anexados([], feitos, Condicao("AND"))| == |feitos|
  {
  }

  /** A builder whose conditions were added with "AND" and nothing else renders as its query and the WHERE part. */
  lemma SqlComWhere(base: string, tabela: string, conds: seq<string>)
    ensures Sql(Construcao(base, tabela, [], [], Anexados([], conds, Condicao("AND")), [], [], [], [], true)) == base + WhereE(conds)
  {
    var e := Construcao(base, "", [], [], Anexados([], conds, Condicao("AND")), [], [], [], [], true);
    SqlTabela(e, tabela);
    assert e.(tabela := tabela) == Construcao(base, tabela, [], [], Anexados([], conds, Condicao("AND")), [], [], [], [], true);
    if conds == [] {
      SqlSoConsulta(e);
    } else {
      SqlWhereAnd(base, conds);
    }
  }

  lemma SqlTabela(e: Estado, tabela: string)
    ensures Sql(e.(tabela := tabela)) == Sql(e)
  {
  }

  lemma SemAlias(q: string)
    ensures q + AdAlias("") == q
  {
  }

  /** The rows the default list shows: the table's rows with the delete column 0. */
  lemma ListaPadraoSql(tabela: string, prefixo: string)
    ensures Sql(ListaPadrao(tabela, prefixo)) == "SELECT __CAMPOS__ FROM " + tabela + " WHERE  " + prefixo + "delete = 0"
  {
    var c := prefixo + "delete = 0";
    AnexadoUnico(c, "AND");
    SqlComWhere("SELECT __CAMPOS__ FROM " + tabela, tabela, [c]);
    assert Join([c], " AND ") == c;
  }

  lemma InsertComeca(tabela: string, ns: seq<string>)
    ensures StartsWith(InsertSql(tabela, ns), "INSERT")
  {
    var q := InsertSql(tabela, ns);
    assert q[..6] == ("INSERT INTO " + tabela)[..6];
  }

  lemma UpdateComeca(tabela: string, cs: seq<Campo>)
    ensures !StartsWith(UpdateSql(tabela, cs), "INSERT")
  {
    var q := UpdateSql(tabela, cs);
    assert q[..6] == ("UPDATE " + tabela + " SET")[..6];
    assert q[..6] == "UPDATE";
  }

  /** One more column binds its value when its property exists, and nothing otherwise. */
  lemma VinculadosPasso(campos: seq<string>, props: Propriedades, prefixo: Option<string>, i: int)
    requires 0 <= i < |campos|
    ensures var nome := NomePropriedade(campos[i], prefixo);
      Vinculados(campos[..i + 1], props, prefixo) ==
        if HasKey(props, nome) then Vinculados(campos[..i], props, prefixo) + [(":" + campos[i], Prop(props, nome))]
        else Vinculados(campos[..i], props, prefixo)
  {
    var p := campos[..i + 1];
    assert |p| - 1 == i;
    assert p[..|p| - 1] == campos[..i] && p[|p| - 1] == campos[i];
  }

  lemma PutAllSnocUm<K, V>(a: seq<(K, V)>, ps: seq<(K, V)>, p: (K, V))
    ensures PutAll(a, ps + [p]) == Put(PutAll(a, ps), p.0, p.1)
  {
    assert (ps + [p])[..|ps|] == ps;
  }

  /** A column whose property name no other column of the row shares is loaded with its value. */
  lemma CarregadoColuna(props: Propriedades, prefixo: Option<string>, linha: seq<(string, Value)>, i: int)
    requires 0 <= i < |linha|
    requires forall j :: 0 <= j < |linha| && j != i ==> NomePropriedade(linha[j].0, prefixo) != NomePropriedade(linha[i].0, prefixo)
    ensures Get(Carregado(props, prefixo, linha), NomePropriedade(linha[i].0, prefixo)) == Some(linha[i].1)
  {
    var ps := ParaPropriedades(linha, prefixo);
    var k := NomePropriedade(linha[i].0, prefixo);
    GetPutAll(props, ps, k);
    assert ps[i].0 == k;
  }

  /** A property no column of the row names keeps its value. */
  lemma CarregadoResto(props: Propriedades, prefixo: Option<string>, linha: seq<(string, Value)>, k: string)
    requires forall j :: 0 <= j < |linha| ==> NomePropriedade(linha[j].0, prefixo) != k
    ensures Get(Carregado(props, prefixo, linha), k) == Get(props, k)
  {
    var ps := ParaPropriedades(linha, prefixo);
    GetPutAll(props, ps, k);
  }

  /** obterValorPK of a record with a table maps exactly the PK names to their properties. */
  lemma ValorPKGet(tabela: string, prefixo: Option<string>, props: Propriedades, pk: seq<string>, k: string)
    requires !Empty(Str(tabela))
    ensures var campos := Pdodl.IdentificaPK(pk, prefixo);
      Get(ValorPK(tabela, prefixo, props, pk), k) == if k in campos then Some(Prop(props, k)) else None
  {
    var campos := Pdodl.IdentificaPK(pk, prefixo);
    var pares := ParesPk(campos, props);
    GetPutAll([], pares, k);
    if k in campos {
      var i :| 0 <= i < |campos| && campos[i] == k;
      assert pares[i].0 == k;
    } else {
      assert forall i :: 0 <= i < |pares| ==> pares[i].0 != k;
    }
  }

  lemma MarcadorInjetivo(a: string, b: string)
    requires ":" + a == ":" + b
    ensures a == b
  {
    assert a == (":" + a)[1..];
    assert b == (":" + b)[1..];
  }

  /** The bindings of salvar: ':c' is bound to c's property when it exists and is absent otherwise. */
  lemma {:induction false} VinculadosUltimo(campos: seq<string>, props: Propriedades, prefixo: Option<string>, c: string)
    ensures LastValue(Vinculados(campos, props, prefixo), ":" + c) ==
      if c in campos && HasKey(props, NomePropriedade(c, prefixo)) then Some(Prop(props, NomePropriedade(c, prefixo))) else None
    decreases |campos|
  {
    if campos != [] {
      var init := campos[..|campos| - 1];
      var u := campos[|campos| - 1];
      VinculadosUltimo(init, props, prefixo, c);
      var v := Vinculados(init, props, prefixo);
      var nome := NomePropriedade(u, prefixo);
      assert campos == init + [u];
      assert c in campos <==> c in init || c == u;
      if HasKey(props, nome) {
        var w := v + [(":" + u, Prop(props, nome))];
        assert Vinculados(campos, props, prefixo) == w;
        assert w[..|w| - 1] == v;
        if ":" + u == ":" + c {
          MarcadorInjetivo(u, c);
          assert LastValue(w, ":" + c) == Some(Prop(props, nome));
        } else {
          assert LastValue(w, ":" + c) == LastValue(v, ":" + c);
        }
      } else {
        assert Vinculados(campos, props, prefixo) == v + [] == v;
      }
    }
  }

  /** The data salvar binds: ':c' for a column c whose property exists, with that property's value; nothing for the others. */
  lemma DadosSalvarColuna(campos: seq<string>, props: Propriedades, prefixo: Option<string>, c: string)
    requires c in campos
    ensures Get(DadosSalvar(campos, props, prefixo), ":" + c) ==
      if HasKey(props, NomePropriedade(c, prefixo)) then Some(Prop(props, NomePropriedade(c, prefixo))) else None
  {
    VinculadosUltimo(campos, props, prefixo, c);
    GetPutAll([], Vinculados(campos, props, prefixo), ":" + c);
  }

  /** The statement of salvar is an INSERT exactly for an empty record. */
  lemma SalvarEscolhe(vazio: bool, tabela: string, inserirPk: bool, info: seq<Campo>, incluir: seq<string>, excluir: seq<string>)
    ensures StartsWith(ConsultaSalvar(vazio, tabela, inserirPk, info, incluir, excluir).0, "INSERT") <==> vazio
  {
    var cs := FiltrarCamposTabela(info, incluir, excluir);
    if vazio {
      InsertComeca(tabela, Nomes(ParaInsert(cs, inserirPk)));
    } else {
      UpdateComeca(tabela, cs);
    }
  }

  // ---------------------------------------------------- consulting lists

  /** (int) of a summed column value: integers as they are, decimal digit strings read, anything else 0. */
  function Numero(v: Value): int
  {
    match v
    case Int(n) => n
    case Str(s) => if AllDigits(s) then ParseNat(s) else 0
    case Bool(b) => if b then 1 else 0
    case _ => 0
  }

  /** array_sum(array_column(rows, col)): the rows that are arrays holding the column contribute its value. */
  function SomaColuna(rows: seq<(Key, Value)>, col: Key): int
    decreases |rows|
  {
    if rows == [] then 0
    else
      var row := rows[0].1;
      (if row.Arr? && HasKey(row.entries, col) then Numero(Get(row.entries, col).value) else 0) + SomaColuna(rows[1..], col)
  }

  /** qtdeRegistros from what listar returned: 0 unless it is an array, else the sum of its QTDE column. */
  function QtdeRegistros(rs: Value): (r: int)
  {
    if !rs.Arr? then 0 else SomaColuna(rs.entries, StrKey("QTDE"))
  }

  /** The count of a result is the sum of the counts of its parts (one per group of a GROUP BY). */
  lemma {:induction false} QtdeRegistrosAditiva(a: seq<(Key, Value)>, b: seq<(Key, Value)>)
    ensures QtdeRegistros(Arr(a + b)) == QtdeRegistros(Arr(a)) + QtdeRegistros(Arr(b))
    decreases |a|
  {
    if a == [] {
      assert a + b == b;
    } else {
      assert (a + b)[0] == a[0];
      assert (a + b)[1..] == a[1..] + b;
      QtdeRegistrosAditiva(a[1..], b);
    }
  }

  /** A single row counts what its QTDE column says; a failed listing counts 0. */
  lemma QtdeRegistrosUma(k: Key, n: int)
    ensures QtdeRegistros(Arr([(k, Arr([(StrKey("QTDE"), Int(n))]))])) == n
    ensures QtdeRegistros(Bool(false)) == 0
  {
    var row := [(StrKey("QTDE"), Int(n))];
    var rows := [(k, Arr(row))];
    assert row[0].0 == StrKey("QTDE");
    assert HasKey(row, StrKey("QTDE"));
    assert rows[1..] == [];
    assert SomaColuna(rows, StrKey("QTDE")) == Numero(Int(n)) + SomaColuna([], StrKey("QTDE"));
  }

  /** `$rs[posicao]`, from the end for a negative posicao; null when out of range. */
  function NaPosicao(rs: seq<(Key, Value)>, posicao: int): Value
  {
    match Get(rs, IntKey(if posicao < 0 then |rs| + posicao else posicao))
    case Some(v) => v
    case None => Null
  }

  /** On rows as fetchAll numbers them, posicao -1 is the last row, -|rs| the first, and p >= 0 row p. */
  lemma NaPosicaoLista(rs: seq<(Key, Value)>, posicao: int)
    requires forall i :: 0 <= i < |rs| ==> rs[i].0 == IntKey(i)
    requires -|rs| <= posicao < |rs|
    ensures NaPosicao(rs, posicao) == rs[if posicao < 0 then |rs| + posicao else posicao].1
  {
    var i := if posicao < 0 then |rs| + posicao else posicao;
    assert UniqueKeys(rs) by {
      forall a, b | 0 <= a < b < |rs|
        ensures rs[a].0 != rs[b].0
      {
        assert rs[a].0 == IntKey(a) && rs[b].0 == IntKey(b);
      }
    }
    GetUnique(rs, i);
  }

  /**
   * The end of listar: false when the query failed; with a posicao and some
   * rows, the row at that position; otherwise all rows without the MSSQL_LINHA
   * column the MSSQL pagination adds.
   */
  method ResultadoListar(rs: Option<seq<(Key, Value)>>, posicao: Option<int>) returns (r: Value)
    ensures rs.None? ==> r == Bool(false)
    ensures rs.Some? && posicao.Some? && rs.value != [] ==> r == NaPosicao(rs.value, posicao.value)
    ensures rs.Some? && (posicao.None? || rs.value == []) ==>
      r.Arr? && |r.entries| == |rs.value| &&
      forall i :: 0 <= i < |rs.value| ==>
        r.entries[i] == (rs.value[i].0, WithoutColumns(rs.value[i].1, [StrKey("MSSQL_LINHA")]))
  {
    if rs.None? {
      return Bool(false);
    }
    if posicao.Some? && rs.value != [] {
      return NaPosicao(rs.value, posicao.value);
    }
    var semLinha := RemoverColuna(Arr(rs.value), Some([StrKey("MSSQL_LINHA")]));
    r := Arr(semLinha.value);
  }
}
