// The record controller of the generated application
// (_auto/controles/basecontroleregistro.controle.php): the URLs of a record's
// pages, the primary key written into a URL, loading a POSTed record, actions
// on a batch of ids, the options a user may see in a list, the search filter
// of a list, the page count and the message after deleting records.
//
// The model (its primary-key fields, its table's columns, what its methods
// answer), the session and the permissions are parameters.

module ControleRegistro {
  import opened Wrappers
  import opened Text
  import opened Values
  import opened Assoc
  import opened Strings
  import Diversos

  // ------------------------------------------------------------------ URLs

  /** The text gerarURLs puts before each primary-key placeholder. */
  const URL_IMPLODE: string := "/:"

  /**
   * The primary-key part of the detail and edit URLs: "/:id" for a model
   * without a table, otherwise "/:" and the key fields joined by "/:", or null
   * when that join is empty() (no key field, or a single field named "0").
   */
  function UrlPk(temTabela: bool, pks: seq<string>): (r: Option<string>)
    ensures !temTabela ==> r == Some("/:id")
    ensures temTabela && pks == [] ==> r == None
    ensures temTabela && |pks| >= 2 ==> r == Some(URL_IMPLODE + Join(pks, URL_IMPLODE))
    ensures r.Some? ==> StartsWith(r.value, URL_IMPLODE)
  {
    if !temTabela then assert URL_IMPLODE + "id" == "/:id"; Some(URL_IMPLODE + "id")
    else
      var j := Join(pks, URL_IMPLODE);
      JoinLongo(pks, URL_IMPLODE);
      if !Empty(Str(j)) then Some(URL_IMPLODE + j) else None
  }

  /** Two pieces or more joined hold the separator at least once. */
  lemma JoinLongo(parts: seq<string>, sep: string)
    ensures |parts| >= 2 ==> |Join(parts, sep)| >= |sep|
  {
    if |parts| >= 2 {
      assert Join(parts, sep) == parts[0] + sep + Join(parts[1..], sep);
    }
  }

  /** A single key field gives one placeholder named after it. */
  lemma UrlPkUnica(k: string)
    requires k != "" && k != "0"
    ensures UrlPk(true, [k]) == Some(URL_IMPLODE + k)
  {
  }

  /**
   * PK2URL: each ":field" of the record's primary key is replaced by its
   * value, one field after the other over the whole URL (str_replace with
   * arrays), in the order of the key.
   */
  function Pk2Url(url: string, pk: seq<(string, string)>): string
    decreases |pk|
  {
    if pk == [] then url else Pk2Url(ReplaceAll(url, ":" + pk[0].0, pk[0].1), pk[1..])
  }

  /** A text without ':' holds no placeholder. */
  lemma SemDoisPontos(s: string, p: string)
    requires |p| > 0 && p[0] == ':' && ':' !in s
    ensures !Occurs(s, p)
  {
    forall i | 0 <= i <= |s| - |p|
      ensures !OccursAt(s, p, i)
    {
      assert s[i..i + |p|][0] == s[i] != ':';
    }
  }

  /** A placeholder met once, after a text without ':', is replaced there and nowhere else. */
  lemma {:induction false} ReplaceUnico(a: string, p: string, v: string, b: string)
    requires |p| > 0 && p[0] == ':' && ':' !in a && !Occurs(b, p)
    ensures ReplaceAll(a + p + b, p, v) == a + v + b
    decreases |a|
  {
    var s := a + p + b;
    if a == [] {
      assert s == p + b;
      assert s[..|p|] == p && s[|p|..] == b;
      ReplaceAbsent(b, p, v);
    } else {
      assert s[..|p|][0] == a[0] != ':';
      assert s[1..] == a[1..] + p + b;
      ReplaceUnico(a[1..], p, v, b);
      assert [a[0]] + (a[1..] + v + b) == a + v + b;
    }
  }

  /** A URL without placeholders comes back unchanged. */
  lemma {:induction false} Pk2UrlSemMarcador(url: string, pk: seq<(string, string)>)
    requires ':' !in url
    ensures Pk2Url(url, pk) == url
    decreases |pk|
  {
    if pk != [] {
      SemDoisPontos(url, ":" + pk[0].0);
      ReplaceAbsent(url, ":" + pk[0].0, pk[0].1);
      Pk2UrlSemMarcador(url, pk[1..]);
    }
  }

  /**
   * A key field whose name starts another's is replaced inside the longer
   * placeholder first: with the key [k, k + x], ":" + k + x becomes the first
   * value followed by x, and the second value never appears (":id_pai" under
   * the key [id, id_pai] becomes "5_pai").
   */
  lemma Pk2UrlPrefixo(a: string, k: string, x: string, v: string, w: string)
    requires ':' !in a && ':' !in x && ':' !in v
    ensures Pk2Url(a + ":" + k + x, [(k, v), (k + x, w)]) == a + v + x
  {
    var pk := [(k, v), (k + x, w)];
    var url := a + ":" + k + x;
    SemDoisPontos(x, ":" + k);
    assert url == a + (":" + k) + x;
    ReplaceUnico(a, ":" + k, v, x);
    var u := a + v + x;
    assert Pk2Url(url, pk) == Pk2Url(u, [(k + x, w)]) by {
      assert pk[0] == (k, v) && pk[1..] == [(k + x, w)];
    }
    assert ':' !in u by {
      assert forall c :: c in u ==> c in a || c in v || c in x;
    }
    SemDoisPontos(u, ":" + (k + x));
    ReplaceAbsent(u, ":" + (k + x), w);
    assert Pk2Url(u, [(k + x, w)]) == Pk2Url(u, []) by {
      assert [(k + x, w)][1..] == [];
    }
  }

  /**
   * The detail or edit URL of a table with a single key field, given the
   * record's key value, is the base URL, "/" and that value.
   */
  lemma UrlDoRegistro(base: string, k: string, v: string)
    requires ':' !in base && k != "" && k != "0"
    ensures Pk2Url(base + UrlPk(true, [k]).GetOr(""), [(k, v)]) == base + "/" + v
  {
    UrlPkUnica(k);
    assert base + UrlPk(true, [k]).GetOr("") == (base + "/") + (":" + k) + "";
    ReplaceUnico(base + "/", ":" + k, v, "");
    assert [(k, v)][1..] == [];
  }

  /**
   * Without a table obterValorPK keys the id ':id', so PK2URL looks for
   * "::id", finds none, and the placeholder ":id" stays in the URL.
   */
  lemma UrlDoRegistroSemTabela(base: string, pks: seq<string>, v: string)
    requires ':' !in base
    ensures Pk2Url(base + UrlPk(false, pks).GetOr(""), [(":id", v)]) == base + "/:id"
  {
    var url := base + UrlPk(false, pks).GetOr("");
    assert url == base + "/:id";
    assert !Occurs(url, "::id") by {
      forall i | 0 <= i <= |url| - |"::id"|
        ensures !OccursAt(url, "::id", i)
      {
        assert url[i] != ':' by {
          if i < |base| {
            assert url[i] == base[i];
          }
        }
        assert url[i..i + 4][0] == url[i];
      }
    }
    assert ":" + ":id" == "::id";
    ReplaceAbsent(url, "::id", v);
    assert Pk2Url(url, [(":id", v)]) == Pk2Url(url, []) by {
      assert [(":id", v)][1..] == [];
    }
  }

  /** The URLs of the record pages; null until gerarURLs has run. */
  class BaseControleRegistro {
    var urlLista: Option<string>
    var urlDetalhes: Option<string>
    var urlNovo: Option<string>
    var urlEditar: Option<string>
    var urlExcluir: Option<string>

    constructor()
      ensures urlLista == None && urlDetalhes == None && urlNovo == None
      ensures urlEditar == None && urlExcluir == None
    {
      urlLista := None;
      urlDetalhes := None;
      urlNovo := None;
      urlEditar := None;
      urlExcluir := None;
    }

    /**
     * gerarURLs: the list URL is the base; details and editing append their
     * segment and the primary-key part (nothing when it is null); new and
     * delete append their segment.
     */
    method GerarURLs(lista: string, temTabela: bool, pks: seq<string>)
      modifies this
      ensures var pk := UrlPk(temTabela, pks).GetOr("");
        urlLista == Some(lista) &&
        urlDetalhes == Some(lista + "/mostrar-detalhes" + pk) &&
        urlNovo == Some(lista + "/novo") &&
        urlEditar == Some(lista + "/editar" + pk) &&
        urlExcluir == Some(lista + "/excluir")
    {
      var pk := UrlPk(temTabela, pks).GetOr("");
      urlLista := Some(lista);
      urlDetalhes := Some(lista + "/mostrar-detalhes" + pk);
      urlNovo := Some(lista + "/novo");
      urlEditar := Some(lista + "/editar" + pk);
      urlExcluir := Some(lista + "/excluir");
    }
  }

  // ------------------------------------------------------------ carregarPost

  /** array_intersect_key: the POST entries whose name is a key field, in POST order. */
  function ValoresPK(post: seq<(string, Value)>, pks: seq<string>): (r: seq<(string, Value)>)
    ensures |r| <= |post|
    ensures forall k :: Get(r, k) == (if k in pks then Get(post, k) else None)
    decreases |post|
  {
    if post == [] then []
    else if post[0].0 in pks then [post[0]] + ValoresPK(post[1..], pks)
    else ValoresPK(post[1..], pks)
  }

  /** The key values carregarPost selects the record by; none when no key field was posted. */
  function SelecaoPK(post: seq<(string, Value)>, pks: seq<string>): Option<seq<(string, Value)>>
  {
    var v := ValoresPK(post, pks);
    if v == [] then None else Some(v)
  }

  /** No record is selected exactly when no key field was posted. */
  lemma SelecaoPKNenhuma(post: seq<(string, Value)>, pks: seq<string>)
    ensures SelecaoPK(post, pks) == None <==> forall k :: k in pks ==> !HasKey(post, k)
  {
    var r := ValoresPK(post, pks);
    if r != [] {
      var k := r[0].0;
      assert Get(r, k).Some?;
      assert k in pks && HasKey(post, k);
    } else {
      forall k | k in pks
        ensures !HasKey(post, k)
      {
        assert Get(r, k) == None;
      }
    }
  }

  /**
   * carregarPost: the record named by the posted key fields is selected (the
   * model then holds `carregado`), then the POST is loaded into it as
   * post2Objeto does.
   */
  method CarregarPost(metodoRequisicao: string, post: seq<(string, Value)>, pks: seq<string>,
                      carregado: seq<(string, Value)>, o: Diversos.Objeto)
    returns (selecao: Option<seq<(string, Value)>>)
    modifies o
    ensures selecao == SelecaoPK(post, pks)
    ensures var antes := if selecao.Some? then carregado else old(o.props);
      if metodoRequisicao == "POST"
      then Diversos.Carga(o.props, o.chamadas) == Diversos.Carregar(Diversos.Carga(antes, old(o.chamadas)), o.metodos, post)
      else o.props == antes && o.chamadas == old(o.chamadas)
  {
    selecao := SelecaoPK(post, pks);
    if selecao.Some? {
      o.props := carregado;
    }
    Diversos.Post2Objeto(metodoRequisicao, post, o);
  }

  // ------------------------------------------------------------ executarLote

  const MSG_NENHUM_REGISTRO: string := "Nenhum registro foi encontrado."

  /** What executarLote answers: how many ids were posted and the model's answer for each. */
  datatype Lote = Lote(total: nat, modificados: seq<Value>)

  /**
   * The record the model holds after selecionarPK(id) (basemodeloregistro.modelo.php:345-359
   * and 282-334): a null id returns at once and a primary key of other than one column
   * returns false, both leaving the record as it was; otherwise the record is loaded
   * when the id selects a row, and the model is left empty (reg_vazio) when it does not.
   * `atual` is the id of the loaded record, None when the model is empty.
   */
  function Selecionar(atual: Option<int>, id: Option<int>, colunasPK: nat, linhas: set<int>): (r: Option<int>)
    ensures id.None? || colunasPK != 1 ==> r == atual
    ensures id.Some? && colunasPK == 1 ==> (r.Some? <==> id.value in linhas)
    ensures r.Some? ==> r == atual || r == id
  {
    if id.None? || colunasPK != 1 then atual
    else if id.value in linhas then id
    else None
  }

  /** The record held after each selection of the batch, in order, starting from `atual`. */
  function Carregados(atual: Option<int>, ids: seq<Option<int>>, colunasPK: nat, linhas: set<int>): (r: seq<Option<int>>)
    ensures |r| == |ids|
    ensures |ids| > 0 ==> r[0] == Selecionar(atual, ids[0], colunasPK, linhas)
    ensures forall i :: 0 < i < |ids| ==> r[i] == Selecionar(r[i - 1], ids[i], colunasPK, linhas)
    decreases |ids|
  {
    if ids == [] then []
    else
      var a := Selecionar(atual, ids[0], colunasPK, linhas);
      var t := Carregados(a, ids[1..], colunasPK, linhas);
      var r := [a] + t;
      forall i | 0 < i < |ids| ensures r[i] == Selecionar(r[i - 1], ids[i], colunasPK, linhas) {
        assert r[i] == t[i - 1] && ids[1..][i - 1] == ids[i];
        if i > 1 {
          assert r[i - 1] == t[i - 2];
        }
      }
      r
  }

  /**
   * A null id repeats the record before it: the model's method runs again on
   * the record the previous id loaded.
   */
  lemma IdNuloRepete(atual: Option<int>, ids: seq<Option<int>>, colunasPK: nat, linhas: set<int>, i: nat)
    requires 0 < i < |ids| && ids[i].None?
    ensures Carregados(atual, ids, colunasPK, linhas)[i] == Carregados(atual, ids, colunasPK, linhas)[i - 1]
  {
  }

  /** An id that selects no row leaves the model empty, whatever was loaded before. */
  lemma IdAusenteEsvazia(atual: Option<int>, ids: seq<Option<int>>, colunasPK: nat, linhas: set<int>, i: nat)
    requires i < |ids| && ids[i].Some? && ids[i].value !in linhas && colunasPK == 1
    ensures Carregados(atual, ids, colunasPK, linhas)[i].None?
  {
    var cs := Carregados(atual, ids, colunasPK, linhas);
    if i == 0 {
      assert cs[0] == Selecionar(atual, ids[0], colunasPK, linhas);
    } else {
      assert cs[i] == Selecionar(cs[i - 1], ids[i], colunasPK, linhas);
    }
  }

  /**
   * The model's method run on the record held after each selection (None for
   * an empty model); the first exception ends the batch.
   */
  function Resultados(ids: seq<Option<int>>, acao: Option<int> -> Outcome<Value>): (r: Outcome<seq<Value>>)
    ensures r.Ok? <==> forall i :: 0 <= i < |ids| ==> acao(ids[i]).Ok?
    ensures r.Ok? ==> |r.value| == |ids| && forall i :: 0 <= i < |ids| ==> acao(ids[i]) == Ok(r.value[i])
    decreases |ids|
  {
    if ids == [] then Ok([])
    else
      var ini := ids[..|ids| - 1];
      assert forall i :: 0 <= i < |ini| ==> ini[i] == ids[i];
      match Resultados(ini, acao)
      case Throw(c, m) => Throw(c, m)
      case Ok(vs) =>
        match acao(ids[|ids| - 1])
        case Throw(c, m) => Throw(c, m)
        case Ok(v) => Ok(vs + [v])
  }

  /** One more id: its answer is appended, or its exception ends the batch. */
  lemma ResultadosPasso(ids: seq<Option<int>>, acao: Option<int> -> Outcome<Value>, i: int)
    requires 0 <= i < |ids| && Resultados(ids[..i], acao).Ok?
    ensures acao(ids[i]).Throw? ==> Resultados(ids[..i + 1], acao) == Throw(acao(ids[i]).code, acao(ids[i]).message)
    ensures acao(ids[i]).Ok? ==>
      Resultados(ids[..i + 1], acao) == Ok(Resultados(ids[..i], acao).value + [acao(ids[i]).value])
  {
    assert ids[..i + 1][..i] == ids[..i];
  }

  /** The exception that ends a batch is the one of the first id whose call throws. */
  lemma {:induction false} ResultadosPrimeiraFalha(ids: seq<Option<int>>, acao: Option<int> -> Outcome<Value>, i: int)
    requires 0 <= i < |ids| && acao(ids[i]).Throw?
    requires forall j :: 0 <= j < i ==> acao(ids[j]).Ok?
    ensures Resultados(ids, acao) == Throw(acao(ids[i]).code, acao(ids[i]).message)
    decreases |ids|
  {
    var ini := ids[..|ids| - 1];
    if i < |ids| - 1 {
      assert ini[i] == ids[i];
      ResultadosPrimeiraFalha(ini, acao, i);
    } else {
      assert forall j :: 0 <= j < |ini| ==> ini[j] == ids[j];
    }
  }

  /** A batch that threw on a prefix of the ids throws the same for all of them. */
  lemma {:induction false} ResultadosPrefixo(ids: seq<Option<int>>, acao: Option<int> -> Outcome<Value>, n: int)
    requires 0 <= n <= |ids| && Resultados(ids[..n], acao).Throw?
    ensures Resultados(ids, acao) == Resultados(ids[..n], acao)
    decreases |ids|
  {
    if n == |ids| {
      assert ids[..n] == ids;
    } else {
      var ini := ids[..|ids| - 1];
      assert ini[..n] == ids[..n];
      ResultadosPrefixo(ini, acao, n);
    }
  }

  /**
   * executarLote: no id posted throws 1404; otherwise each id is selected in
   * turn and the model's method is run on the record the model then holds,
   * and the answer holds the number of ids and the list of answers, one per
   * id in order.
   */
  method ExecutarLote(ids: seq<Option<int>>, atual: Option<int>, colunasPK: nat, linhas: set<int>,
                      acao: Option<int> -> Outcome<Value>) returns (r: Outcome<Lote>)
    ensures ids == [] ==> r == Throw(NOT_FOUND, MSG_NENHUM_REGISTRO)
    ensures ids != [] ==> r == match Resultados(Carregados(atual, ids, colunasPK, linhas), acao)
                               case Ok(vs) => Ok(Lote(|ids|, vs))
                               case Throw(c, m) => Throw(c, m)
  {
    if ids == [] {
      return Throw(NOT_FOUND, MSG_NENHUM_REGISTRO);
    }
    ghost var cs := Carregados(atual, ids, colunasPK, linhas);
    var modificados: seq<Value> := [];
    var registro := atual;
    var i := 0;
    while i < |ids|
      invariant 0 <= i <= |ids|
      invariant i == 0 ==> registro == atual
      invariant i > 0 ==> registro == cs[i - 1]
      invariant Resultados(cs[..i], acao) == Ok(modificados)
    {
      registro := Selecionar(registro, ids[i], colunasPK, linhas);
      assert registro == cs[i];
      var res := acao(registro);
      ResultadosPasso(cs, acao, i);
      if res.Throw? {
        ResultadosPrefixo(cs, acao, i + 1);
        return Throw(res.code, res.message);
      }
      modificados := modificados + [res.value];
      i := i + 1;
    }
    assert cs[..|ids|] == cs;
    r := Ok(Lote(|ids|, modificados));
  }

  // ----------------------------------------------------------------- excluir

  const MSG_EXCLUIDO: string := "Registro excluído com sucesso!"
  const MSG_NENHUM_EXCLUIDO: string := "Ops! Nenhum registro foi excluído. Por favor, tente novamente."

  /** 'Foram excluídos %d registros de um total de %d selecionados.' */
  function MsgExcluidos(n: nat, total: nat): string
  {
    "Foram excluídos " + NatToString(n) + " registros de um total de " + NatToString(total) + " selecionados."
  }

  /** The message shown to the user, its kind and the model's answers sent back as 'ids'. */
  datatype Mensagem = Mensagem(texto: string, tipo: string, ids: seq<Value>)

  /** The message once the number of deleted records is known to be n. */
  function MensagemPara(n: nat, lote: Lote): (r: Mensagem)
    ensures r.ids == lote.modificados
    ensures r.tipo == "-erro" <==> n == 0
  {
    if n > 0 then
      Mensagem(if lote.total == 1 then MSG_EXCLUIDO else MsgExcluidos(n, lote.total), "-sucesso", lote.modificados)
    else Mensagem(MSG_NENHUM_EXCLUIDO, "-erro", lote.modificados)
  }

  /** excluir as written: every answer counts as a deleted record, false ones included. */
  function MensagemExcluirComoEscrito(lote: Lote): (r: Mensagem)
    ensures r.tipo == "-erro" <==> lote.modificados == []
  {
    MensagemPara(|lote.modificados|, lote)
  }

  /** The answers that are not empty(): the records the model did delete. */
  function Excluidos(vs: seq<Value>): (n: nat)
    ensures n <= |vs|
    ensures n == 0 <==> forall i :: 0 <= i < |vs| ==> Empty(vs[i])
    ensures n == |vs| <==> forall i :: 0 <= i < |vs| ==> !Empty(vs[i])
    decreases |vs|
  {
    if vs == [] then 0
    else
      var ini := vs[..|vs| - 1];
      assert forall i :: 0 <= i < |ini| ==> ini[i] == vs[i];
      Excluidos(ini) + (if Empty(vs[|vs| - 1]) then 0 else 1)
  }

  /**
   * excluir's message, counting only the answers that are not false: the
   * error message exactly when nothing was deleted, otherwise the success
   * message for a single selected record or the count of those deleted.
   */
  function MensagemExcluir(lote: Lote): (r: Mensagem)
    ensures r.ids == lote.modificados
    ensures r.tipo == "-erro" <==> forall i :: 0 <= i < |lote.modificados| ==> Empty(lote.modificados[i])
    ensures r.tipo == "-sucesso" && lote.total != 1 ==>
      r.texto == MsgExcluidos(Excluidos(lote.modificados), lote.total) && Excluidos(lote.modificados) <= |lote.modificados|
  {
    MensagemPara(Excluidos(lote.modificados), lote)
  }

  /**
   * The discrepancy: a batch in which every deletion answered false is
   * announced as a success as written, and as the error it is once only the
   * answers that are not false are counted.
   */
  lemma ExcluirFalhaComoSucesso(lote: Lote)
    requires lote.modificados != []
    requires forall i :: 0 <= i < |lote.modificados| ==> lote.modificados[i] == Bool(false)
    ensures MensagemExcluirComoEscrito(lote).tipo == "-sucesso"
    ensures MensagemExcluir(lote).tipo == "-erro"
  {
  }

  /** When every record was deleted, the corrected message is the one the code writes. */
  lemma MensagemExcluirConcorda(lote: Lote)
    requires forall i :: 0 <= i < |lote.modificados| ==> !Empty(lote.modificados[i])
    ensures MensagemExcluir(lote) == MensagemExcluirComoEscrito(lote)
  {
  }

  /**
   * excluir as written: the batch of deletions, then the message that counts
   * every answer as a deleted record.
   */
  method Excluir(ids: seq<Option<int>>, atual: Option<int>, colunasPK: nat, linhas: set<int>,
                 acao: Option<int> -> Outcome<Value>) returns (r: Outcome<Mensagem>)
    ensures ids == [] ==> r == Throw(NOT_FOUND, MSG_NENHUM_REGISTRO)
    ensures ids != [] ==> r == match Resultados(Carregados(atual, ids, colunasPK, linhas), acao)
                               case Ok(vs) => Ok(MensagemExcluirComoEscrito(Lote(|ids|, vs)))
                               case Throw(c, m) => Throw(c, m)
  {
    var lote := ExecutarLote(ids, atual, colunasPK, linhas, acao);
    if lote.Throw? {
      return Throw(lote.code, lote.message);
    }
    r := Ok(MensagemExcluirComoEscrito(lote.value));
  }

  /** excluir with the corrected count: only the answers that are not false count as deleted. */
  method ExcluirCorrigido(ids: seq<Option<int>>, atual: Option<int>, colunasPK: nat, linhas: set<int>,
                          acao: Option<int> -> Outcome<Value>) returns (r: Outcome<Mensagem>)
    ensures ids == [] ==> r == Throw(NOT_FOUND, MSG_NENHUM_REGISTRO)
    ensures ids != [] ==> r == match Resultados(Carregados(atual, ids, colunasPK, linhas), acao)
                               case Ok(vs) => Ok(MensagemExcluir(Lote(|ids|, vs)))
                               case Throw(c, m) => Throw(c, m)
  {
    var lote := ExecutarLote(ids, atual, colunasPK, linhas, acao);
    if lote.Throw? {
      return Throw(lote.code, lote.message);
    }
    r := Ok(MensagemExcluir(lote.value));
  }

  // ------------------------------------------------------- gerarOpcoesPadrao

  /** Which record options a list offers: adding, details, editing, deleting. */
  datatype Opcoes = Opcoes(inserir: bool, detalhes: bool, editar: bool, excluir: bool)

  /**
   * gerarOpcoesPadrao's permissions: authentication is required unless the
   * configuration 'autenticacao' is exactly false (a missing entry reads as
   * null and requires it); then each option needs an active session and the
   * controller's permissions on the methods behind it.
   */
  function OpcoesPadrao(autenticacao: Value, sessaoAtiva: bool, permitidos: set<string>): (r: Opcoes)
    ensures autenticacao == Bool(false) ==> r == Opcoes(true, true, true, true)
    ensures autenticacao != Bool(false) && !sessaoAtiva ==> r == Opcoes(false, false, false, false)
    ensures autenticacao != Bool(false) ==>
      (r.inserir ==> "mostrarForm" in permitidos && "inserir" in permitidos) &&
      (r.detalhes ==> "mostrarDetalhes" in permitidos) &&
      (r.editar ==> "mostrarForm" in permitidos && "salvar" in permitidos) &&
      (r.excluir ==> "excluir" in permitidos)
  {
    var requer := autenticacao != Bool(false);
    var podeInserir := "mostrarForm" in permitidos && "inserir" in permitidos;
    var podeSalvar := "mostrarForm" in permitidos && "salvar" in permitidos;
    Opcoes(!requer || (sessaoAtiva && podeInserir),
           !requer || (sessaoAtiva && "mostrarDetalhes" in permitidos),
           !requer || (sessaoAtiva && podeSalvar),
           !requer || (sessaoAtiva && "excluir" in permitidos))
  }

  /** More permissions never hide an option. */
  lemma OpcoesMonotonas(autenticacao: Value, sessaoAtiva: bool, p: set<string>, q: set<string>)
    requires p <= q
    ensures var a, b := OpcoesPadrao(autenticacao, sessaoAtiva, p), OpcoesPadrao(autenticacao, sessaoAtiva, q);
      (a.inserir ==> b.inserir) && (a.detalhes ==> b.detalhes) &&
      (a.editar ==> b.editar) && (a.excluir ==> b.excluir)
  {
  }

  /** With a session and every permission, every option is offered. */
  lemma OpcoesTodas(autenticacao: Value, p: set<string>)
    requires {"mostrarForm", "inserir", "salvar", "mostrarDetalhes", "excluir"} <= p
    ensures OpcoesPadrao(autenticacao, true, p) == Opcoes(true, true, true, true)
  {
  }

  // -------------------------------------------------------------- gerarLista

  /** The page count of a list: the total divided by the page size, rounded up; 0 without a page size. */
  function TotalPaginas(total: nat, qtde: int): (r: nat)
    ensures qtde <= 0 ==> r == 0
    ensures qtde > 0 ==> (r - 1) * qtde < total <= r * qtde
  {
    if qtde > 0 then
      var q := (total + qtde - 1) / qtde;
      var m := (total + qtde - 1) % qtde;
      assert total + qtde - 1 == q * qtde + m && 0 <= m < qtde;
      assert (q - 1) * qtde == q * qtde - qtde;
      q
    else 0
  }

  // ------------------------------------------------------------ paramsFiltro

  /** [\wÀ-ú]: the characters of a field name in a search term. */
  predicate CampoChar(c: char) { IsWordChar(c) || 'À' <= c <= 'ú' }

  /** [\w\d_\s]: the characters of a searched value. */
  predicate ValorChar(c: char) { IsWordChar(c) || IsPcreSpace(c) }

  predicate CampoValido(c: string) { |c| > 0 && forall i :: 0 <= i < |c| ==> CampoChar(c[i]) }

  predicate ValorValido(v: string) { |v| > 0 && forall i :: 0 <= i < |v| ==> ValorChar(v[i]) }

  /** ~^([\wÀ-ú]+)\:([\w\d\_\s]+)$~ on a term: its field and its value. */
  function Casamento(t: string): (r: Option<(string, string)>)
    ensures r.Some? ==> CampoValido(r.value.0) && ValorValido(r.value.1) && t == r.value.0 + ":" + r.value.1
  {
    var n := RunLength(t, CampoChar);
    if 0 < n < |t| && t[n] == ':' && ValorValido(t[n + 1..]) then Some((t[..n], t[n + 1..])) else None
  }

  /** Every "field:value" of the right characters matches, with that field and that value. */
  lemma CasamentoDe(c: string, v: string)
    requires CampoValido(c) && ValorValido(v)
    ensures Casamento(c + ":" + v) == Some((c, v))
  {
    var t := c + ":" + v;
    var n := RunLength(t, CampoChar);
    assert t[|c|] == ':' && !CampoChar(':');
    assert forall i :: 0 <= i < |c| ==> t[i] == c[i];
    assert n == |c|;
    assert t[..n] == c && t[n + 1..] == v;
  }

  /** The LIKE pattern: an all-digit value as it is, anything else trimmed and between '%'. */
  function ValorLike(v: string): (r: string)
    ensures AllDigits(v) ==> r == v
    ensures !AllDigits(v) ==> |r| >= 2 && StartsWith(r, "%") && EndsWith(r, "%") && r[1..|r| - 1] == Trim(v, WHITESPACE)
  {
    if AllDigits(v) then v else "%" + Trim(v, WHITESPACE) + "%"
  }

  /** One condition of the search: for the WHERE part (onde) or the HAVING part, and its text. */
  datatype Clausula = Clausula(onde: bool, texto: string)

  /**
   * One term of the search: a "field:value" term searches the field with
   * LIKE, in WHERE when the table has that column and in HAVING otherwise;
   * any other term adds "()" to WHERE.
   */
  function ClausulaTermo(termo: string, colunas: set<string>): Clausula
  {
    match Casamento(Trim(termo, WHITESPACE))
    case None => Clausula(true, "()")
    case Some((c, v)) => Clausula(c in colunas, "`" + c + "` LIKE '" + ValorLike(v) + "'")
  }

  /** A well-formed term becomes the LIKE condition on its field. */
  lemma ClausulaDe(c: string, v: string, colunas: set<string>)
    requires CampoValido(c) && ValorValido(v) && v[|v| - 1] !in WHITESPACE
    ensures ClausulaTermo(c + ":" + v, colunas) == Clausula(c in colunas, "`" + c + "` LIKE '" + ValorLike(v) + "'")
  {
    var t := c + ":" + v;
    assert t[0] == c[0] && CampoChar(c[0]) && t[0] !in WHITESPACE;
    assert t[|t| - 1] == v[|v| - 1];
    assert TrimLeft(t, WHITESPACE) == t;
    assert TrimRight(t, WHITESPACE) == t;
    CasamentoDe(c, v);
  }

  /** A term without ':' is malformed. */
  lemma ClausulaMalformada(termo: string, colunas: set<string>)
    requires ':' !in termo
    ensures ClausulaTermo(termo, colunas) == Clausula(true, "()")
  {
    var l := TrimLeft(termo, WHITESPACE);
    var t := Trim(termo, WHITESPACE);
    assert ':' !in t by {
      forall i | 0 <= i < |t|
        ensures t[i] != ':'
      {
        assert t[i] == l[i] == termo[|termo| - |l| + i];
      }
    }
  }

  /** The conditions paramsFiltro gathers, in the order of the terms. */
  datatype ParamsSql = ParamsSql(onde: seq<string>, having: seq<string>)

  /** The conditions, in order, split between WHERE and HAVING. */
  function Reparte(cs: seq<Clausula>): (r: ParamsSql)
    ensures |r.onde| + |r.having| == |cs|
    decreases |cs|
  {
    if cs == [] then ParamsSql([], [])
    else
      var p := Reparte(cs[..|cs| - 1]);
      var c := cs[|cs| - 1];
      if c.onde then p.(onde := p.onde + [c.texto]) else p.(having := p.having + [c.texto])
  }

  /** The condition of each term. */
  function Clausulas(termos: seq<string>, colunas: set<string>): (r: seq<Clausula>)
    ensures |r| == |termos|
    ensures forall i :: 0 <= i < |termos| ==> r[i] == ClausulaTermo(termos[i], colunas)
  {
    seq(|termos|, i requires 0 <= i < |termos| => ClausulaTermo(termos[i], colunas))
  }

  /** The conditions of a list of terms: one per term, each in WHERE or HAVING. */
  function Filtro(termos: seq<string>, colunas: set<string>): (r: ParamsSql)
  {
    Reparte(Clausulas(termos, colunas))
  }

  /** When every condition goes to WHERE, HAVING stays empty and WHERE holds them all, in order. */
  lemma {:induction false} ReparteSoOnde(cs: seq<Clausula>)
    requires forall i :: 0 <= i < |cs| ==> cs[i].onde
    ensures Reparte(cs).having == []
    ensures forall i :: 0 <= i < |cs| ==> Reparte(cs).onde[i] == cs[i].texto
    decreases |cs|
  {
    if cs != [] {
      var ini := cs[..|cs| - 1];
      assert forall i :: 0 <= i < |ini| ==> ini[i] == cs[i];
      ReparteSoOnde(ini);
    }
  }

  /** When every term goes to WHERE (a term per known column, or malformed), HAVING stays empty. */
  lemma FiltroSoOnde(termos: seq<string>, colunas: set<string>)
    requires forall i :: 0 <= i < |termos| ==> ClausulaTermo(termos[i], colunas).onde
    ensures Filtro(termos, colunas).having == []
    ensures forall i :: 0 <= i < |termos| ==> Filtro(termos, colunas).onde[i] == ClausulaTermo(termos[i], colunas).texto
  {
    ReparteSoOnde(Clausulas(termos, colunas));
  }

  /**
   * paramsFiltro: an empty() 'termo' gives no condition; otherwise each
   * comma-separated term adds one condition.
   */
  method ParamsFiltro(termo: Option<string>, colunas: set<string>) returns (p: ParamsSql)
    ensures termo.None? || Empty(Str(termo.value)) ==> p == ParamsSql([], [])
    ensures termo.Some? && !Empty(Str(termo.value)) ==>
      p == Filtro(Split(termo.value, ','), colunas) && |p.onde| + |p.having| >= 1
  {
    if termo.None? || Empty(Str(termo.value)) {
      return ParamsSql([], []);
    }
    p := FiltrarTermos(Split(termo.value, ','), colunas);
  }

  /** The loop of paramsFiltro over the terms. */
  method FiltrarTermos(termos: seq<string>, colunas: set<string>) returns (p: ParamsSql)
    ensures p == Filtro(termos, colunas)
  {
    ghost var cs := Clausulas(termos, colunas);
    p := ParamsSql([], []);
    var i := 0;
    while i < |termos|
      invariant 0 <= i <= |termos|
      invariant p == Reparte(cs[..i])
    {
      var c := ClausulaTermo(termos[i], colunas);
      assert c == cs[i];
      assert cs[..i + 1][..i] == cs[..i] && cs[..i + 1][i] == c;
      if c.onde {
        p := p.(onde := p.onde + [c.texto]);
      } else {
        p := p.(having := p.having + [c.texto]);
      }
      i := i + 1;
    }
    assert cs[..|termos|] == cs;
  }
}
