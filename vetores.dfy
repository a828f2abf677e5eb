// The array helpers of DLX\Ajudantes\Vetores (dlx/ajudantes/vetores.ajudante.php).

module Vetores {
  import opened Wrappers
  import opened Text
  import opened Assoc
  import opened Values

  // ------------------------------------------------------------ arrayAssoc

  /** range(0, n - 1) as array keys; PHP counts down for range(0, -1), giving [0, -1]. */
  function RangeKeys(n: nat): seq<Key>
  {
    if n == 0 then [IntKey(0), IntKey(-1)] else seq(n, i => IntKey(i))
  }

  /** arrayAssoc: the keys are not 0..n-1 in order. */
  function ArrayAssoc(a: seq<(Key, Value)>): bool
  {
    Keys(a) != RangeKeys(|a|)
  }

  predicate IsList(a: seq<(Key, Value)>)
  {
    forall i :: 0 <= i < |a| ==> a[i].0 == IntKey(i)
  }

  /** A non-empty array is associative exactly when it is not a 0-based list; the empty array counts as associative. */
  lemma ArrayAssocIff(a: seq<(Key, Value)>)
    ensures ArrayAssoc(a) <==> (a == [] || !IsList(a))
  {
    if a != [] && IsList(a) {
      assert Keys(a) == RangeKeys(|a|);
    }
    if a != [] && !IsList(a) {
      var i :| 0 <= i < |a| && a[i].0 != IntKey(i);
      assert Keys(a)[i] != RangeKeys(|a|)[i];
    }
  }

  // ------------------------------------------------------------ arrayMulti

  /** arrayMulti: the plain and the recursive counts differ. */
  function ArrayMulti(a: seq<(Key, Value)>): bool
  {
    |a| != CountRecursive(a)
  }

  /** An array is multidimensional exactly when one of its entries is a non-empty array. */
  lemma ArrayMultiIff(a: seq<(Key, Value)>)
    ensures ArrayMulti(a) <==> exists i :: 0 <= i < |a| && NonEmptyArray(a[i].1)
  {
    CountFromBound(Arr(a), 0);
  }

  // ------------------------------------------------------- arrayMapRecursivo

  function MapValue(f: (Value, Key) -> Value, v: Value, k: Key): Value
    decreases v, 1
  {
    if v.Arr? then Arr(MapFrom(f, v, 0)) else f(v, k)
  }

  function MapFrom(f: (Value, Key) -> Value, v: Value, i: nat): (r: seq<(Key, Value)>)
    requires v.Arr? && i <= |v.entries|
    ensures |r| == |v.entries| - i
    decreases v, 0, |v.entries| - i
  {
    if i == |v.entries| then []
    else
      var (k, x) := v.entries[i];
      [(k, MapValue(f, x, k))] + MapFrom(f, v, i + 1)
  }

  /** arrayMapRecursivo(callback, a): leaves go through callback(value, key), arrays are walked. */
  function ArrayMapRecursivo(f: (Value, Key) -> Value, a: seq<(Key, Value)>): seq<(Key, Value)>
  {
    MapFrom(f, Arr(a), 0)
  }

  lemma {:induction false} MapFromAt(f: (Value, Key) -> Value, v: Value, i: nat, j: int)
    requires v.Arr? && i <= j < |v.entries|
    ensures MapFrom(f, v, i)[j - i] == (v.entries[j].0, MapValue(f, v.entries[j].1, v.entries[j].0))
    decreases |v.entries| - i
  {
    if i < j {
      MapFromAt(f, v, i + 1, j);
    }
  }

  /** Every key stays in place; nested arrays stay arrays and are mapped in turn; leaves become callback(value, key). */
  lemma MapKeepsStructure(f: (Value, Key) -> Value, a: seq<(Key, Value)>, j: int)
    requires 0 <= j < |a|
    ensures |ArrayMapRecursivo(f, a)| == |a|
    ensures ArrayMapRecursivo(f, a)[j].0 == a[j].0
    ensures a[j].1.Arr? ==> ArrayMapRecursivo(f, a)[j].1 == Arr(ArrayMapRecursivo(f, a[j].1.entries))
    ensures !a[j].1.Arr? ==> ArrayMapRecursivo(f, a)[j].1 == f(a[j].1, a[j].0)
  {
    MapFromAt(f, Arr(a), 0, j);
  }

  /** Mapping with a callback that returns its value unchanged gives back the array. */
  lemma {:induction false} MapIdentity(f: (Value, Key) -> Value, v: Value, i: nat)
    requires forall x, k :: f(x, k) == x
    requires v.Arr? && i <= |v.entries|
    ensures MapFrom(f, v, i) == v.entries[i..]
    decreases v, |v.entries| - i
  {
    if i < |v.entries| {
      var (k, x) := v.entries[i];
      MapIdentity(f, v, i + 1);
      if x.Arr? {
        MapIdentity(f, x, 0);
        assert x.entries[0..] == x.entries;
      }
      assert v.entries[i..] == [v.entries[i]] + v.entries[i + 1..];
    }
  }

  // ----------------------------------------------------- array2AtributosHTML

  /**
   * preg_replace('#(^~|~$)#', '', v): a leading and a trailing '~' are dropped; `$` also
   * matches before a final newline, so a '~' just before one goes too.
   */
  function StripTildes(v: string): (r: string)
    ensures |v| - 2 <= |r| <= |v|
    ensures '~' !in v ==> r == v
    ensures !EndsWith(v, "~\n") ==> OccursAt(v, r, if |v| > 0 && v[0] == '~' then 1 else 0)
    ensures |v| >= 3 && v[0] != '~' && EndsWith(v, "~\n") ==> r == v[..|v| - 2] + "\n"
  {
    var a := if |v| > 0 && v[0] == '~' then v[1..] else v;
    if |a| > 0 && a[|a| - 1] == '~' then a[..|a| - 1]
    else if |a| >= 2 && a[|a| - 2] == '~' && a[|a| - 1] == '\n' then a[..|a| - 2] + "\n"
    else a
  }

  /** Both ends go even when the value ends in a newline: "~a~\n" becomes "a\n". */
  lemma StripTildesNovaLinha()
    ensures StripTildes("~a~\n") == "a\n"
  {
    assert "~a~\n"[1..] == "a~\n";
    assert "a~\n"[..1] == "a";
  }

  /** The callback of array2AtributosHTML for one attribute; a null value yields null. */
  function AtributoHTML(name: string, value: Option<string>): Option<string>
  {
    match value
    case None => None
    case Some(v0) =>
      var v := if Lower(name) == "pattern" then StripTildes(v0) else v0;
      if '"' in v then Some(name + "='" + v + "'") else Some(name + "=\"" + v + "\"")
  }

  /** HTML attributes in order: a name and its value, null when the attribute is left out. */
  type Atributos = seq<(string, Option<string>)>

  /** array2AtributosHTML: the rendered attributes joined by spaces (a null leaves an empty piece). */
  function Array2AtributosHTML(attrs: Atributos): (r: string)
  {
    Join(RenderAll(attrs), " ")
  }

  function RenderAll(attrs: Atributos): (r: seq<string>)
    ensures |r| == |attrs|
    ensures forall i :: 0 <= i < |attrs| ==> r[i] == AtributoHTML(attrs[i].0, attrs[i].1).GetOr("")
    decreases |attrs|
  {
    if attrs == [] then [] else [AtributoHTML(attrs[0].0, attrs[0].1).GetOr("")] + RenderAll(attrs[1..])
  }

  /**
   * A value without a double quote is written name="value", one with a double
   * quote name='value'; a pattern loses its '~' delimiters first.
   */
  lemma AtributoQuoting(name: string, v: string)
    ensures Lower(name) != "pattern" && '"' !in v ==> AtributoHTML(name, Some(v)) == Some(name + "=\"" + v + "\"")
    ensures Lower(name) != "pattern" && '"' in v ==> AtributoHTML(name, Some(v)) == Some(name + "='" + v + "'")
    ensures Lower(name) == "pattern" && '"' !in v && |v| >= 2 && v[0] == '~' && v[|v| - 1] == '~' ==>
            AtributoHTML(name, Some(v)) == Some(name + "=\"" + v[1..|v| - 1] + "\"")
  {
    if Lower(name) == "pattern" && |v| >= 2 {
      assert v[1..][..|v[1..]| - 1] == v[1..|v| - 1];
      assert forall c :: c in v[1..|v| - 1] ==> c in v;
    }
  }

  lemma {:induction false} RenderAllSnoc(attrs: Atributos, x: (string, Option<string>))
    ensures RenderAll(attrs + [x]) == RenderAll(attrs) + [AtributoHTML(x.0, x.1).GetOr("")]
  {
  }

  /** Each further attribute adds one space and its rendering, in order. */
  lemma Array2AtributosSnoc(attrs: Atributos, x: (string, Option<string>))
    ensures Array2AtributosHTML(attrs + [x]) ==
      if attrs == [] then AtributoHTML(x.0, x.1).GetOr("")
      else Array2AtributosHTML(attrs) + " " + AtributoHTML(x.0, x.1).GetOr("")
  {
    RenderAllSnoc(attrs, x);
    if attrs != [] {
      JoinSnoc(RenderAll(attrs), AtributoHTML(x.0, x.1).GetOr(""), " ");
    }
  }

  /** An element: its opening (up to the attributes), the attributes, '>', the text and its closing tag. */
  function Elemento(abre: string, a: Atributos, texto: string, fecha: string): (r: string)
    ensures StartsWith(r, abre)
    ensures EndsWith(r, ">" + texto + fecha)
  {
    var x := abre;
    var y := ">" + texto + fecha;
    var r := x + Array2AtributosHTML(a) + y;
    assert r[..|x|] == x;
    assert r[|r| - |y|..] == y;
    r
  }

  // ------------------------------------------------------------ removerColuna

  /** unset($row[$col]) for each listed column, in order. */
  function RemoveKeys(e: seq<(Key, Value)>, cols: seq<Key>): seq<(Key, Value)>
    decreases |cols|
  {
    if cols == [] then e else RemoveKeys(Remove(e, cols[0]), cols[1..])
  }

  lemma {:induction false} GetRemoveKeys(e: seq<(Key, Value)>, cols: seq<Key>, k: Key)
    ensures Get(RemoveKeys(e, cols), k) == if k in cols then None else Get(e, k)
    decreases |cols|
  {
    if cols != [] {
      GetRemoveKeys(Remove(e, cols[0]), cols[1..], k);
      GetRemove(e, cols[0], k);
    }
  }

  function WithoutColumns(row: Value, cols: seq<Key>): Value
  {
    if row.Arr? then Arr(RemoveKeys(row.entries, cols)) else row
  }

  /**
   * removerColuna: false (None) for a non-array; otherwise every array row
   * loses the listed columns and everything else is kept.
   */
  method RemoverColuna(v: Value, colunas: Option<seq<Key>>) returns (r: Option<seq<(Key, Value)>>)
    ensures r.Some? <==> v.Arr?
    ensures r.Some? && colunas.None? ==> r.value == v.entries
    ensures r.Some? && colunas.Some? ==>
      |r.value| == |v.entries| &&
      forall i :: 0 <= i < |v.entries| ==>
        r.value[i] == (v.entries[i].0, WithoutColumns(v.entries[i].1, colunas.value))
  {
    if !v.Arr? {
      return None;
    }
    var rows := v.entries;
    if colunas.Some? {
      var cols := colunas.value;
      var n := 0;
      while n < |rows|
        invariant 0 <= n <= |rows| && |rows| == |v.entries|
        invariant forall i :: 0 <= i < n ==> rows[i] == (v.entries[i].0, WithoutColumns(v.entries[i].1, cols))
        invariant forall i :: n <= i < |rows| ==> rows[i] == v.entries[i]
      {
        var (key, row) := rows[n];
        var c := 0;
        while c < |cols|
          invariant 0 <= c <= |cols|
          invariant WithoutColumns(row, cols[c..]) == WithoutColumns(v.entries[n].1, cols)
        {
          assert cols[c..] == [cols[c]] + cols[c + 1..];
          if row.Arr? {
            row := Arr(Remove(row.entries, cols[c]));
          }
          c := c + 1;
        }
        assert cols[c..] == [];
        rows := rows[n := (key, row)];
        n := n + 1;
      }
    }
    return Some(rows);
  }

  /** After removerColuna a row answers no listed column and every other lookup as before. */
  lemma RemoverColunaLookup(row: Value, cols: seq<Key>, k: Key)
    requires row.Arr?
    ensures Get(WithoutColumns(row, cols).entries, k) == if k in cols then None else Get(row.entries, k)
  {
    GetRemoveKeys(row.entries, cols, k);
  }

  // ------------------------------------------------------------ coluna2Chave

  /** The key a row is filed under: its column value cast to a key (null when missing). */
  function RowKey(row: seq<(Key, Value)>, col: Key): Key
  {
    AsKey(Get(row, col).GetOr(Null))
  }

  /** The next integer key array_push uses. */
  function NextIndex(e: seq<(Key, Value)>): int
    decreases |e|
  {
    if e == [] then 0
    else
      var rest := NextIndex(e[1..]);
      match e[0].0
      case IntKey(n) => if n + 1 > rest then n + 1 else rest
      case StrKey(_) => rest
  }

  /** What a key holds after one more row is filed under it. */
  function Arquivado(atual: Option<Value>, conteudo: Value): Value
  {
    match atual
    case None => conteudo
    case Some(a) =>
      if a.Arr? && ArrayMulti(a.entries) then Arr(a.entries + [(IntKey(NextIndex(a.entries)), conteudo)])
      else Arr([(IntKey(0), a), (IntKey(1), conteudo)])
  }

  /** One step of coluna2Chave: file one row. */
  function FileRow(acc: seq<(Key, Value)>, row: seq<(Key, Value)>, col: Key): seq<(Key, Value)>
  {
    var chave := RowKey(row, col);
    Put(acc, chave, Arquivado(Get(acc, chave), Arr(Remove(row, col))))
  }

  /** coluna2Chave as a fold over the rows. */
  function Coluna2ChaveSpec(rows: seq<seq<(Key, Value)>>, col: Key): seq<(Key, Value)>
    decreases |rows|
  {
    if rows == [] then [] else FileRow(Coluna2ChaveSpec(rows[..|rows| - 1], col), rows[|rows| - 1], col)
  }

  method Coluna2Chave(rows: seq<seq<(Key, Value)>>, col: Key) returns (r: seq<(Key, Value)>)
    ensures r == Coluna2ChaveSpec(rows, col)
  {
    r := [];
    var i := 0;
    while i < |rows|
      invariant 0 <= i <= |rows|
      invariant r == Coluna2ChaveSpec(rows[..i], col)
    {
      assert rows[..i + 1][..i] == rows[..i];
      var row := rows[i];
      var chave := RowKey(row, col);
      var conteudo := Arr(Remove(row, col));
      if HasKey(r, chave) {
        var atual := Get(r, chave).value;
        if atual.Arr? && ArrayMulti(atual.entries) {
          r := Put(r, chave, Arr(atual.entries + [(IntKey(NextIndex(atual.entries)), conteudo)]));
        } else {
          r := Put(r, chave, Arr([(IntKey(0), atual), (IntKey(1), conteudo)]));
        }
      } else {
        r := Put(r, chave, conteudo);
      }
      i := i + 1;
    }
    assert rows[..i] == rows;
  }

  /** Some row has k in the key column. */
  predicate Aparece(rows: seq<seq<(Key, Value)>>, col: Key, k: Key)
  {
    exists i :: 0 <= i < |rows| && RowKey(rows[i], col) == k
  }

  lemma ApareceSnoc(rows: seq<seq<(Key, Value)>>, col: Key, k: Key)
    requires rows != []
    ensures Aparece(rows, col, k) <==> Aparece(rows[..|rows| - 1], col, k) || RowKey(rows[|rows| - 1], col) == k
  {
    var init := rows[..|rows| - 1];
    if Aparece(init, col, k) {
      var i :| 0 <= i < |init| && RowKey(init[i], col) == k;
      assert rows[i] == init[i];
    }
    if Aparece(rows, col, k) {
      var i :| 0 <= i < |rows| && RowKey(rows[i], col) == k;
      if i < |init| {
        assert init[i] == rows[i];
      }
    }
  }

  /** The result has one key per distinct column value, each once. */
  lemma {:induction false} Coluna2ChaveKeys(rows: seq<seq<(Key, Value)>>, col: Key)
    ensures UniqueKeys(Coluna2ChaveSpec(rows, col))
    ensures forall k :: HasKey(Coluna2ChaveSpec(rows, col), k) <==> Aparece(rows, col, k)
    decreases |rows|
  {
    if rows != [] {
      var init := rows[..|rows| - 1];
      var last := rows[|rows| - 1];
      Coluna2ChaveKeys(init, col);
      var acc := Coluna2ChaveSpec(init, col);
      var chave := RowKey(last, col);
      var v := Arquivado(Get(acc, chave), Arr(Remove(last, col)));
      PutUnique(acc, chave, v);
      forall k ensures HasKey(Put(acc, chave, v), k) <==> Aparece(rows, col, k) {
        GetPut(acc, chave, v, k);
        ApareceSnoc(rows, col, k);
      }
    }
  }

  /** A key filed by a single row holds that row without the key column. */
  lemma {:induction false} Coluna2ChaveSingle(rows: seq<seq<(Key, Value)>>, col: Key, j: int)
    requires 0 <= j < |rows|
    requires forall i :: 0 <= i < |rows| && i != j ==> RowKey(rows[i], col) != RowKey(rows[j], col)
    ensures Get(Coluna2ChaveSpec(rows, col), RowKey(rows[j], col)) == Some(Arr(Remove(rows[j], col)))
    decreases |rows|
  {
    var init := rows[..|rows| - 1];
    var last := rows[|rows| - 1];
    var acc := Coluna2ChaveSpec(init, col);
    var k := RowKey(rows[j], col);
    var v := Arquivado(Get(acc, RowKey(last, col)), Arr(Remove(last, col)));
    GetPut(acc, RowKey(last, col), v, k);
    if j < |rows| - 1 {
      assert init[j] == rows[j];
      Coluna2ChaveSingle(init, col, j);
    } else {
      Coluna2ChaveKeys(init, col);
      assert forall i :: 0 <= i < |init| ==> init[i] == rows[i];
    }
  }

  // ------------------------------------------------------- executarRecursivo

  /** executarRecursivo: the function is called once per value, in order; the calls' results are returned. */
  method ExecutarRecursivo<R>(vetor: seq<(Key, Value)>, funcao: Value -> R) returns (calls: seq<R>)
    ensures |calls| == |vetor|
    ensures forall i :: 0 <= i < |vetor| ==> calls[i] == funcao(vetor[i].1)
  {
    calls := [];
    var i := 0;
    while i < |vetor|
      invariant 0 <= i <= |vetor| && |calls| == i
      invariant forall j :: 0 <= j < i ==> calls[j] == funcao(vetor[j].1)
    {
      calls := calls + [funcao(vetor[i].1)];
      i := i + 1;
    }
  }

  // ---------------------------------------------------- buscarChaveRecursivo

  predicate GroupHas(g: Value, k: Key)
  {
    g.Arr? && HasKey(g.entries, k)
  }

  /** buscarChaveRecursivo: the value under the key in the first group that has it, or null. */
  function BuscarChaveRecursivo(vetor: seq<(Key, Value)>, busca: Key): (r: Option<Value>)
    ensures r.None? <==> forall i :: 0 <= i < |vetor| ==> !GroupHas(vetor[i].1, busca)
    ensures r.Some? ==>
      exists i :: 0 <= i < |vetor| && GroupHas(vetor[i].1, busca) &&
        (forall j :: 0 <= j < i ==> !GroupHas(vetor[j].1, busca)) &&
        Get(vetor[i].1.entries, busca) == r
    decreases |vetor|
  {
    if vetor == [] then None
    else if GroupHas(vetor[0].1, busca) then Get(vetor[0].1.entries, busca)
    else
      var r := BuscarChaveRecursivo(vetor[1..], busca);
      assert forall i :: 1 <= i < |vetor| ==> vetor[i] == vetor[1..][i - 1];
      r
  }

  // --------------------------------------------------------- extrairElementos

  /** The `+=` accumulation of extrairElementos over the listed keys. */
  function ExtrairSpec(vetor: seq<(Key, Value)>, chaves: seq<Key>): seq<(Key, Value)>
    decreases |chaves|
  {
    if chaves == [] then []
    else
      var acc := ExtrairSpec(vetor, chaves[..|chaves| - 1]);
      match SubArray(vetor, chaves[|chaves| - 1])
      case Some(e) => Union(acc, e)
      case None => acc
  }

  /** The entries of the array stored under k, when there is one. */
  function SubArray(vetor: seq<(Key, Value)>, k: Key): Option<seq<(Key, Value)>>
  {
    var g := Get(vetor, k);
    if g.Some? && g.value.Arr? then Some(g.value.entries) else None
  }

  /** array_filter: the entries whose value passes, keys preserved. */
  function FilterValues(e: seq<(Key, Value)>, p: Value -> bool): (r: seq<(Key, Value)>)
    ensures |r| <= |e|
    ensures forall i :: 0 <= i < |r| ==> r[i] in e && p(r[i].1)
    ensures forall i :: 0 <= i < |e| && p(e[i].1) ==> e[i] in r
    decreases |e|
  {
    if e == [] then []
    else
      var resto := FilterValues(e[1..], p);
      assert forall i :: 1 <= i < |e| ==> e[i] == e[1..][i - 1];
      (if p(e[0].1) then [e[0]] else []) + resto
  }

  /**
   * array_filter keeps the order of the array: filtering two pieces one after
   * the other gives the filtered pieces one after the other.
   */
  lemma {:induction false} FilterValuesAppend(a: seq<(Key, Value)>, b: seq<(Key, Value)>, p: Value -> bool)
    ensures FilterValues(a + b, p) == FilterValues(a, p) + FilterValues(b, p)
    decreases |a|
  {
    if a != [] {
      assert (a + b)[1..] == a[1..] + b;
      FilterValuesAppend(a[1..], b, p);
    } else {
      assert a + b == b;
    }
  }

  /** A single entry is kept exactly when its value passes. */
  lemma FilterValuesUm(x: (Key, Value), p: Value -> bool)
    ensures FilterValues([x], p) == if p(x.1) then [x] else []
  {
    assert [x][1..] == [];
  }

  /** A listed key that is present holds something other than an array. */
  predicate NaoArray(vetor: seq<(Key, Value)>, k: Key)
  {
    HasKey(vetor, k) && !Get(vetor, k).value.Arr?
  }

  /** The message of PHP 7's Error for `array + <non-array>`. */
  const MSG_OPERANDOS := "Unsupported operand types"

  /**
   * extrairElementos: the sub-arrays under the listed keys, unioned in order,
   * then filtered when a filter is given. The first listed key whose value is not
   * an array stops it with PHP 7's Error for `array + <non-array>`.
   */
  method ExtrairElementos(vetor: seq<(Key, Value)>, chaves: seq<Key>, filtro: Option<Value -> bool>)
    returns (r: Outcome<seq<(Key, Value)>>)
    ensures r.Throw? <==> exists i :: 0 <= i < |chaves| && NaoArray(vetor, chaves[i])
    ensures r.Throw? ==>
      exists i :: 0 <= i < |chaves| && NaoArray(vetor, chaves[i]) &&
        (forall j :: 0 <= j < i ==> !NaoArray(vetor, chaves[j])) &&
        r == Throw(ERRO_PHP, MSG_OPERANDOS)
    ensures r.Ok? && filtro.None? ==> r.value == ExtrairSpec(vetor, chaves)
    ensures r.Ok? && filtro.Some? ==> r.value == FilterValues(ExtrairSpec(vetor, chaves), filtro.value)
  {
    var elementos: seq<(Key, Value)> := [];
    var i := 0;
    while i < |chaves|
      invariant 0 <= i <= |chaves|
      invariant forall j :: 0 <= j < i ==> !NaoArray(vetor, chaves[j])
      invariant elementos == ExtrairSpec(vetor, chaves[..i])
    {
      assert chaves[..i + 1][..i] == chaves[..i];
      if HasKey(vetor, chaves[i]) {
        var v := Get(vetor, chaves[i]).value;
        if !v.Arr? {
          return Throw(ERRO_PHP, MSG_OPERANDOS);
        }
        elementos := Union(elementos, v.entries);
      }
      i := i + 1;
    }
    assert chaves[..i] == chaves;
    r := Ok(if filtro.Some? then FilterValues(elementos, filtro.value) else elementos);
  }

  /** Earlier keys win: an element comes from the first listed sub-array that has it. */
  lemma {:induction false} ExtrairFirstWins(vetor: seq<(Key, Value)>, chaves: seq<Key>, k: Key)
    ensures Get(ExtrairSpec(vetor, chaves), k) == FirstWith(vetor, chaves, k)
    decreases |chaves|
  {
    if chaves != [] {
      var init := chaves[..|chaves| - 1];
      ExtrairFirstWins(vetor, init, k);
      FirstWithSnoc(vetor, init, chaves[|chaves| - 1], k);
      assert init + [chaves[|chaves| - 1]] == chaves;
      match SubArray(vetor, chaves[|chaves| - 1])
      case Some(e) => GetUnion(ExtrairSpec(vetor, init), e, k);
      case None =>
    }
  }

  /** The reference reading: scan the listed keys in order for the first sub-array holding k. */
  function FirstWith(vetor: seq<(Key, Value)>, chaves: seq<Key>, k: Key): Option<Value>
    decreases |chaves|
  {
    if chaves == [] then None
    else match SubArray(vetor, chaves[0])
      case Some(e) => if HasKey(e, k) then Get(e, k) else FirstWith(vetor, chaves[1..], k)
      case None => FirstWith(vetor, chaves[1..], k)
  }

  lemma {:induction false} FirstWithSnoc(vetor: seq<(Key, Value)>, init: seq<Key>, last: Key, k: Key)
    ensures FirstWith(vetor, init + [last], k) ==
      if FirstWith(vetor, init, k).Some? then FirstWith(vetor, init, k)
      else match SubArray(vetor, last)
        case Some(e) => Get(e, k)
        case None => None
    decreases |init|
  {
    if init != [] {
      assert (init + [last])[1..] == init[1..] + [last];
      FirstWithSnoc(vetor, init[1..], last, k);
    } else {
      assert [last][1..] == [];
    }
  }
}
