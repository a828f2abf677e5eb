// DLX\Ajudantes\Calendario (dlx/ajudantes/calendario.ajudante.php): the month
// and year tables of the Gregorian calendar, the events attached to dates and
// the HTML month grid. Dates are (year, month, day) triples: reading a date
// text (formatarData over DateTime) and the weekday of a date (diaDaSemana over
// mktime/date) are inputs, as is today's date that the setters fall back to.

module Calendario {
  import opened Wrappers
  import opened Text
  import opened Values
  import Filtros

  // ------------------------------------------------------------------ calendar

  /** The Gregorian leap-year rule. */
  predicate Bissexto(ano: int)
  {
    ano % 4 == 0 && (ano % 100 != 0 || ano % 400 == 0)
  }

  /** cal_days_in_month(CAL_GREGORIAN, mes, ano). */
  function TotalDias(mes: int, ano: int): (n: int)
    requires 1 <= mes <= 12
    ensures 28 <= n <= 31
    ensures mes == 2 ==> (n == 29 <==> Bissexto(ano)) && (n == 28 <==> !Bissexto(ano))
    ensures mes in {4, 6, 9, 11} ==> n == 30
    ensures mes in {1, 3, 5, 7, 8, 10, 12} ==> n == 31
  {
    if mes == 2 then (if Bissexto(ano) then 29 else 28)
    else if mes == 4 || mes == 6 || mes == 9 || mes == 11 then 30
    else 31
  }

  /** range(1, n). */
  function Intervalo(n: nat): (r: seq<int>)
    ensures |r| == n && forall i :: 0 <= i < n ==> r[i] == i + 1
  {
    if n == 0 then [] else Intervalo(n - 1) + [n]
  }

  /** diasDoMes(mes, ano): the days 1..n of the month, in order. */
  function DiasDoMes(mes: int, ano: int): (r: seq<int>)
    requires 1 <= mes <= 12
    ensures |r| == TotalDias(mes, ano)
    ensures forall i :: 0 <= i < |r| ==> r[i] == i + 1
  {
    Intervalo(TotalDias(mes, ano))
  }

  /** A year has 366 days when it is a leap year and 365 otherwise. */
  lemma DiasDoAno(ano: int)
    ensures TotalDias(1, ano) + TotalDias(2, ano) + TotalDias(3, ano) + TotalDias(4, ano) +
      TotalDias(5, ano) + TotalDias(6, ano) + TotalDias(7, ano) + TotalDias(8, ano) +
      TotalDias(9, ano) + TotalDias(10, ano) + TotalDias(11, ano) + TotalDias(12, ano) ==
      if Bissexto(ano) then 366 else 365
  {
  }

  /** mesesDoAno(ano): the keys 1..12, in order, each holding the days of its month. */
  method MesesDoAno(ano: int) returns (r: seq<(int, seq<int>)>)
    ensures |r| == 12
    ensures forall i :: 0 <= i < 12 ==> r[i].0 == i + 1 && r[i].1 == DiasDoMes(i + 1, ano)
  {
    r := [];
    var i := 1;
    while i < 13
      invariant 1 <= i <= 13 && |r| == i - 1
      invariant forall j :: 0 <= j < i - 1 ==> r[j].0 == j + 1 && r[j].1 == DiasDoMes(j + 1, ano)
    {
      r := r + [(i, DiasDoMes(i, ano))];
      i := i + 1;
    }
  }

  /** The weekday names, Sunday first: [full name, abbreviation]. */
  const DIAS_SEMANA: seq<(string, string)> := [("Domingo", "Dom"), ("Segunda-Feira", "Seg"),
    ("Terça-Feira", "Ter"), ("Quarta-Feira", "Qua"), ("Quinta-Feira", "Qui"), ("Sexta-Feira", "Sex"),
    ("Sábado", "Sáb")]

  /** The month names, January first: [full name, abbreviation]. */
  const MESES: seq<(string, string)> := [("Janeiro", "Jan"), ("Fevereiro", "Fev"), ("Março", "Mar"),
    ("Abril", "Abr"), ("Maio", "Mai"), ("Junho", "Jun"), ("Julho", "Jul"), ("Agosto", "Ago"),
    ("Setembro", "Set"), ("Outubro", "Out"), ("Novembro", "Nov"), ("Dezembro", "Dez")]

  /** Index 0 holds the full name and index 1 the abbreviation. */
  function Nome(par: (string, string), abrev: bool): string
  {
    if abrev then par.1 else par.0
  }

  /** Every abbreviation is the first three letters of its name. */
  predicate Abreviacoes(t: seq<(string, string)>)
  {
    forall i :: 0 <= i < |t| ==> |t[i].1| == 3 && StartsWith(t[i].0, t[i].1)
  }

  lemma AbreviacoesMeses()
    ensures |MESES| == 12 && Abreviacoes(MESES)
  {
    assert Abreviacoes(MESES[..6]);
    assert Abreviacoes(MESES[6..]);
    assert MESES == MESES[..6] + MESES[6..];
  }

  lemma AbreviacoesDias()
    ensures |DIAS_SEMANA| == 7 && Abreviacoes(DIAS_SEMANA)
  {
  }

  /** mesPorExtenso(mes, abrev): a month outside 1..12 has no name (an undefined index, null). */
  function MesPorExtenso(mes: int, abrev: bool): (r: Option<string>)
    ensures r.Some? <==> 1 <= mes <= 12
    ensures r.Some? && abrev ==> |r.value| == 3 && StartsWith(Nome(MESES[mes - 1], false), r.value)
  {
    AbreviacoesMeses();
    if 1 <= mes <= 12 then Some(Nome(MESES[mes - 1], abrev)) else None
  }

  /** diaDaSemanaPorExtenso with the weekday (0 for Sunday) as input. */
  function DiaDaSemanaPorExtenso(semana: int, abrev: bool): (r: string)
    requires 0 <= semana <= 6
    ensures abrev ==> |r| == 3 && StartsWith(Nome(DIAS_SEMANA[semana], false), r)
  {
    AbreviacoesDias();
    Nome(DIAS_SEMANA[semana], abrev)
  }

  // ------------------------------------------------------------------ events

  /** One event: its text, colour and link. */
  datatype Evento = Evento(evento: string, cor: string, link: string)

  const COR_PADRAO: string := "#000"
  const LINK_PADRAO: string := "javascript:"

  datatype Data = Data(ano: int, mes: int, dia: int)

  /** eventos[ano][mes][dia]: the events of each date, in insertion order. */
  type Tabela = map<int, map<int, map<int, seq<Evento>>>>

  /** (array)eventos[ano][mes][dia]: none when any level is missing. */
  function EventosEm(t: Tabela, d: Data): seq<Evento>
  {
    if d.ano in t && d.mes in t[d.ano] && d.dia in t[d.ano][d.mes] then t[d.ano][d.mes][d.dia] else []
  }

  /** eventos[ano][mes][dia][] = evento. */
  function Anexar(t: Tabela, d: Data, e: Evento): (r: Tabela)
    ensures EventosEm(r, d) == EventosEm(t, d) + [e]
    ensures forall d' :: d' != d ==> EventosEm(r, d') == EventosEm(t, d')
  {
    var anos := if d.ano in t then t[d.ano] else map[];
    var meses := if d.mes in anos then anos[d.mes] else map[];
    t[d.ano := anos[d.mes := meses[d.dia := EventosEm(t, d) + [e]]]]
  }

  // ------------------------------------------------------------------ month grid

  /** One cell of the month grid: blank, or a day with its events' HTML. */
  datatype Celula = Vazia(semana: string) | Dia(semana: string, numero: int, eventos: string)

  /** The id of a weekday column: "s-" and its abbreviation. */
  function IdSemana(c: int): string
    requires 0 <= c < 7
  {
    "s-" + DIAS_SEMANA[c].1
  }

  function EventoHTML(e: Evento): string
  {
    "<li class=\"evento\" style=\"background:" + e.cor + "\"><a href=\"" + e.link + "\">" + e.evento + "</a></li>"
  }

  function EventosHTML(l: seq<Evento>): (r: seq<string>)
    ensures |r| == |l| && forall i :: 0 <= i < |l| ==> r[i] == EventoHTML(l[i])
  {
    if l == [] then [] else [EventoHTML(l[0])] + EventosHTML(l[1..])
  }

  /** The list of a day's events; nothing when it has none. */
  function ListaEventos(l: seq<Evento>): string
  {
    if |l| > 0 then "<ul class=\"lista-eventos\">" + Join(EventosHTML(l), "\n") + "</ul>" else ""
  }

  /**
   * The cell in row k, column c: the day 7k + c - inicio + 1 when it lies in
   * 1..total, blank otherwise, where inicio is the column of day 1.
   */
  function CelulaEsperada(t: Tabela, ano: int, mes: int, inicio: int, total: int, k: int, c: int): Celula
    requires 0 <= c < 7
  {
    var n := 7 * k + c - inicio + 1;
    if 1 <= n <= total then Dia(IdSemana(c), n, ListaEventos(EventosEm(t, Data(ano, mes, n))))
    else Vazia(IdSemana(c))
  }

  /** The column of day 1: blank cells are written while the column is below primeiro_dia. */
  function Inicio(primeiro: int): int
  {
    if primeiro > 0 then primeiro else 0
  }

  /** The number of rows: enough 7-cell rows to hold the leading blanks and every day. */
  function Linhas(inicio: nat, total: nat): nat
  {
    (inicio + total + 6) / 7
  }

  /** The days written before column c of row k, given that inicio blanks lead. */
  function Escritos(k: int, c: int, inicio: int, total: int): int
  {
    var p := 7 * k + c - inicio;
    if p < 0 then 0 else if p > total then total else p
  }

  /**
   * One row of the while loop of gerarCalendarioMesHTML: for each weekday, a
   * blank while day 1 waits for primeiro_dia or once the days are over, else
   * the next day with its events.
   */
  method Semana(t: Tabela, ano: int, mes: int, primeiro: int, total: nat, k: nat, dia0: int) returns (linha: seq<Celula>, dia: int)
    requires -1 <= primeiro <= 5
    requires dia0 == Escritos(k, 0, Inicio(primeiro), total) + 1
    ensures |linha| == 7
    ensures forall c :: 0 <= c < 7 ==> linha[c] == CelulaEsperada(t, ano, mes, Inicio(primeiro), total, k, c)
    ensures dia == Escritos(k, 7, Inicio(primeiro), total) + 1
  {
    var inicio := Inicio(primeiro);
    linha := [];
    dia := dia0;
    var c := 0;
    while c < 7
      invariant 0 <= c <= 7 && |linha| == c
      invariant dia == Escritos(k, c, inicio, total) + 1
      invariant forall j :: 0 <= j < c ==> linha[j] == CelulaEsperada(t, ano, mes, inicio, total, k, j)
    {
      ColunaPasso(k, c, primeiro, total, dia);
      if (dia == 1 && c < primeiro) || dia > total {
        linha := linha + [Vazia(IdSemana(c))];
      } else {
        var eventos := ListaEventos(EventosEm(t, Data(ano, mes, dia)));
        linha := linha + [Dia(IdSemana(c), dia, eventos)];
        dia := dia + 1;
      }
      c := c + 1;
    }
  }

  /** Column c of row k is blank exactly when the loop's test says so; otherwise it holds the day `dia`. */
  lemma ColunaPasso(k: nat, c: int, primeiro: int, total: nat, dia: int)
    requires -1 <= primeiro <= 5 && 0 <= c < 7
    requires dia == Escritos(k, c, Inicio(primeiro), total) + 1
    ensures var n := 7 * k + c - Inicio(primeiro) + 1;
      ((dia == 1 && c < primeiro) || dia > total) <==> !(1 <= n <= total)
    ensures !((dia == 1 && c < primeiro) || dia > total) ==>
      dia == 7 * k + c - Inicio(primeiro) + 1 && Escritos(k, c + 1, Inicio(primeiro), total) == dia
    ensures ((dia == 1 && c < primeiro) || dia > total) ==>
      Escritos(k, c + 1, Inicio(primeiro), total) + 1 == dia
  {
  }

  /** Another row is written exactly while some day is still to be written. */
  lemma FaltamDias(k: nat, inicio: nat, total: nat)
    requires inicio <= 6 && total >= 1
    ensures k < Linhas(inicio, total) <==> Escritos(k, 0, inicio, total) < total
  {
    var x := inicio + total;
    var l := Linhas(inicio, total);
    assert 7 * l <= x + 6 < 7 * l + 7;
    var p := 7 * k - inicio;
    if k < l {
      assert 7 * k <= 7 * l - 7;
      assert p < total;
      assert Escritos(k, 0, inicio, total) < total;
    } else {
      assert 7 * k >= 7 * l;
      assert p >= total;
      assert Escritos(k, 0, inicio, total) == total;
    }
  }

  /** The rows of g are the first rows of the month grid. */
  predicate GradeAte(g: seq<seq<Celula>>, t: Tabela, ano: int, mes: int, inicio: int, total: int)
  {
    (forall k :: 0 <= k < |g| ==> |g[k]| == 7) &&
    forall k, c :: 0 <= k < |g| && 0 <= c < 7 ==> g[k][c] == CelulaEsperada(t, ano, mes, inicio, total, k, c)
  }

  lemma GradeMaisUma(g: seq<seq<Celula>>, linha: seq<Celula>, t: Tabela, ano: int, mes: int, inicio: int, total: int)
    requires GradeAte(g, t, ano, mes, inicio, total) && |linha| == 7
    requires forall c :: 0 <= c < 7 ==> linha[c] == CelulaEsperada(t, ano, mes, inicio, total, |g|, c)
    ensures GradeAte(g + [linha], t, ano, mes, inicio, total)
  {
    var g' := g + [linha];
    forall k, c | 0 <= k < |g'| && 0 <= c < 7 ensures g'[k][c] == CelulaEsperada(t, ano, mes, inicio, total, k, c) {
      if k < |g| {
        assert g'[k] == g[k];
      }
    }
  }

  /** The while loop of gerarCalendarioMesHTML: the rows and their HTML. */
  method Grade(t: Tabela, ano: int, mes: int, primeiro: int, total: nat) returns (grade: seq<seq<Celula>>, corpo: string)
    requires -1 <= primeiro <= 5 && total >= 1
    ensures |grade| == Linhas(Inicio(primeiro), total)
    ensures forall k :: 0 <= k < |grade| ==> |grade[k]| == 7
    ensures forall k, c :: 0 <= k < |grade| && 0 <= c < 7 ==>
      grade[k][c] == CelulaEsperada(t, ano, mes, Inicio(primeiro), total, k, c)
    ensures corpo == CorpoHTML(grade)
  {
    var inicio := Inicio(primeiro);
    var diaAtual := 1;
    grade := [];
    corpo := "";
    FaltamDias(0, inicio, total);
    while diaAtual <= total
      invariant diaAtual == Escritos(|grade|, 0, inicio, total) + 1
      invariant |grade| <= Linhas(inicio, total)
      invariant |grade| < Linhas(inicio, total) <==> diaAtual <= total
      invariant GradeAte(grade, t, ano, mes, inicio, total)
      invariant corpo == CorpoHTML(grade)
      decreases Linhas(inicio, total) - |grade|
    {
      var linha;
      linha, diaAtual := Semana(t, ano, mes, primeiro, total, |grade|, diaAtual);
      GradeMaisUma(grade, linha, t, ano, mes, inicio, total);
      assert (grade + [linha])[..|grade|] == grade;
      corpo := corpo + "<tr class=\"semana\">" + LinhaHTML(linha) + "</tr>";
      grade := grade + [linha];
      FaltamDias(|grade|, inicio, total);
    }
  }

  /** The rows one after the other, as the HTML lists the cells. */
  function Achatar(g: seq<seq<Celula>>): seq<Celula>
  {
    if g == [] then [] else Achatar(g[..|g| - 1]) + g[|g| - 1]
  }

  /** The day numbers of a run of cells, in order. */
  function Numeros(cs: seq<Celula>): seq<int>
  {
    if cs == [] then []
    else Numeros(cs[..|cs| - 1]) + (if cs[|cs| - 1].Dia? then [cs[|cs| - 1].numero] else [])
  }

  /** A grid of 7-cell rows, flattened, puts row k, column c at index 7k + c. */
  lemma {:induction false} AchatarIndice(g: seq<seq<Celula>>)
    requires forall k :: 0 <= k < |g| ==> |g[k]| == 7
    ensures |Achatar(g)| == 7 * |g|
    ensures forall k, c :: 0 <= k < |g| && 0 <= c < 7 ==> Achatar(g)[7 * k + c] == g[k][c]
  {
    if g != [] {
      AchatarIndice(g[..|g| - 1]);
    }
  }

  /** Flat position p of the grid holds the cell of row p / 7, column p % 7. */
  predicate CelulaPlana(a: seq<Celula>, t: Tabela, ano: int, mes: int, inicio: int, total: int, p: int)
    requires 0 <= p < |a|
  {
    a[p] == CelulaEsperada(t, ano, mes, inicio, total, p / 7, p % 7)
  }

  /** The first n cells of the grid hold the days 1..Escritos(0, n), in order. */
  lemma {:induction false} NumerosPrefixo(a: seq<Celula>, t: Tabela, ano: int, mes: int, inicio: nat, total: nat, n: nat)
    requires n <= |a|
    requires forall p :: 0 <= p < |a| ==> CelulaPlana(a, t, ano, mes, inicio, total, p)
    ensures Numeros(a[..n]) == Intervalo(Escritos(0, n, inicio, total))
  {
    if n > 0 {
      var p := n - 1;
      NumerosPrefixo(a, t, ano, mes, inicio, total, p);
      var b := a[..n];
      assert b[..p] == a[..p];
      assert b[p] == a[p];
      assert CelulaPlana(a, t, ano, mes, inicio, total, p);
      assert Numeros(b) == Numeros(a[..p]) + (if a[p].Dia? then [a[p].numero] else []);
      CelulaNumero(t, ano, mes, inicio, total, p / 7, p % 7, p, a[p]);
      IntervaloPasso(Escritos(0, p, inicio, total), Escritos(0, n, inicio, total), p - inicio + 1, a[p].Dia?);
    }
  }

  /** The cell at flat position p holds the day p - inicio + 1 exactly when that day lies in 1..total. */
  lemma CelulaNumero(t: Tabela, ano: int, mes: int, inicio: nat, total: nat, k: int, c: int, p: int, x: Celula)
    requires 0 <= c < 7 && 7 * k + c == p
    requires x == CelulaEsperada(t, ano, mes, inicio, total, k, c)
    ensures x.Dia? <==> 1 <= p - inicio + 1 <= total
    ensures x.Dia? ==> x.numero == p - inicio + 1
    ensures Escritos(0, p + 1, inicio, total) == if x.Dia? then Escritos(0, p, inicio, total) + 1 else Escritos(0, p, inicio, total)
  {
  }

  lemma IntervaloPasso(e: nat, e': int, d: int, dia: bool)
    requires e' == if dia then e + 1 else e
    requires dia ==> d == e + 1
    ensures e' >= 0
    ensures Intervalo(e') == Intervalo(e) + (if dia then [d] else [])
  {
  }

  /**
   * The month grid, read row by row, lists every day of the month exactly
   * once, in ascending order.
   */
  lemma GradeListaOsDias(g: seq<seq<Celula>>, t: Tabela, ano: int, mes: int, inicio: nat, total: nat)
    requires inicio <= 6 && |g| == Linhas(inicio, total)
    requires forall k :: 0 <= k < |g| ==> |g[k]| == 7
    requires forall k, c :: 0 <= k < |g| && 0 <= c < 7 ==> g[k][c] == CelulaEsperada(t, ano, mes, inicio, total, k, c)
    ensures Numeros(Achatar(g)) == Intervalo(total)
  {
    var a := Achatar(g);
    AchatarIndice(g);
    forall p | 0 <= p < |a| ensures CelulaPlana(a, t, ano, mes, inicio, total, p) {
      assert 7 * (p / 7) + p % 7 == p;
      assert a[7 * (p / 7) + p % 7] == g[p / 7][p % 7];
    }
    NumerosPrefixo(a, t, ano, mes, inicio, total, |a|);
    assert a[..|a|] == a;
  }

  /** The opening of the table: the caption, then one header cell per weekday. */
  function Cabecalho(mesExtenso: string, ano: int): string
  {
    "<table class=\"calendario-phphtml\">\n            <caption class=\"mes-ano\">" + mesExtenso + " " + IntText(ano) +
    "</caption>\n            <thead class=\"dias-semana\"><tr>" + CabecalhosSemana(7) + "</tr></thead>"
  }

  function CabecalhosSemana(n: nat): string
    requires n <= 7
  {
    if n == 0 then ""
    else CabecalhosSemana(n - 1) + "<th id=\"" + IdSemana(n - 1) + "\">" + DIAS_SEMANA[n - 1].1 + "</th>"
  }

  function CelulaHTML(c: Celula): string
  {
    match c
    case Vazia(s) => "<td header=\"" + s + "\" class=\"dia\"><span class=\"numero\"></span></td>"
    case Dia(s, n, ev) => "<td header=\"" + s + "\" class=\"dia\"><span class=\"numero\">" + IntText(n) + "</span>" + ev + "</td>"
  }

  function LinhaHTML(l: seq<Celula>): string
  {
    if l == [] then "" else LinhaHTML(l[..|l| - 1]) + CelulaHTML(l[|l| - 1])
  }

  /** The body rows, each inside its tr. */
  function CorpoHTML(g: seq<seq<Celula>>): string
  {
    if g == [] then "" else CorpoHTML(g[..|g| - 1]) + "<tr class=\"semana\">" + LinhaHTML(g[|g| - 1]) + "</tr>"
  }

  class Calendario {
    var dia: int
    var mes: int
    var ano: Option<int>
    var eventos: Tabela

    predicate Valid()
      reads this
    {
      1 <= dia <= 31 && 1 <= mes <= 12
    }

    /** __construct(mes, ano, dia): each through its setter; hoje is today's date. */
    constructor (mes0: Value, ano0: Value, dia0: Value, hoje: Data)
      requires 1 <= hoje.mes <= 12 && 1 <= hoje.dia <= 31
      ensures Valid()
      ensures mes == Filtros.ValidarIntFaixa(mes0, 1, 12, hoje.mes)
      ensures ano == Filtros.ValidarInt(ano0)
      ensures dia == Filtros.ValidarIntFaixa(dia0, 1, 31, hoje.dia)
      ensures eventos == map[]
    {
      mes := Filtros.ValidarIntFaixa(mes0, 1, 12, hoje.mes);
      ano := Filtros.ValidarInt(ano0);
      dia := Filtros.ValidarIntFaixa(dia0, 1, 31, hoje.dia);
      eventos := map[];
    }

    /** setDia: 1..31, else today's day. */
    method SetDia(v: Value, hoje: int)
      requires 1 <= hoje <= 31
      modifies this
      ensures dia == Filtros.ValidarIntFaixa(v, 1, 31, hoje)
      ensures mes == old(mes) && ano == old(ano) && eventos == old(eventos)
    {
      dia := Filtros.ValidarIntFaixa(v, 1, 31, hoje);
    }

    /** setMes: 1..12, else today's month. */
    method SetMes(v: Value, hoje: int)
      requires 1 <= hoje <= 12
      modifies this
      ensures mes == Filtros.ValidarIntFaixa(v, 1, 12, hoje)
      ensures dia == old(dia) && ano == old(ano) && eventos == old(eventos)
    {
      mes := Filtros.ValidarIntFaixa(v, 1, 12, hoje);
    }

    /** setAno: an integer, else null. */
    method SetAno(v: Value)
      modifies this
      ensures ano == Filtros.ValidarInt(v)
      ensures dia == old(dia) && mes == old(mes) && eventos == old(eventos)
    {
      ano := Filtros.ValidarInt(v);
    }

    /** adicionarEvento(evento, data, cor, link) with the date already read. */
    method AdicionarEvento(evento: string, data: Data, cor: string, link: string)
      modifies this
      ensures eventos == Anexar(old(eventos), data, Evento(evento, cor, link))
      ensures ResgatarEventos(data) == old(ResgatarEventos(data)) + [Evento(evento, cor, link)]
      ensures forall d :: d != data ==> ResgatarEventos(d) == old(ResgatarEventos(d))
      ensures dia == old(dia) && mes == old(mes) && ano == old(ano)
    {
      eventos := Anexar(eventos, data, Evento(evento, cor, link));
    }

    /** resgatarEventos(data) with the date already read. */
    function ResgatarEventos(data: Data): seq<Evento>
      reads this
    {
      EventosEm(eventos, data)
    }

    /**
     * gerarCalendarioMesHTML, with the weekday of the month's first day as
     * input: the rows of 7 cells the while loop writes, and the HTML.
     */
    method GerarCalendarioMes(semana: int) returns (grade: seq<seq<Celula>>, html: string)
      requires Valid() && ano.Some? && 0 <= semana <= 6
      ensures var inicio := Inicio(semana - 1);
        |grade| == Linhas(inicio, TotalDias(mes, ano.value)) &&
        (forall k :: 0 <= k < |grade| ==> |grade[k]| == 7) &&
        forall k, c :: 0 <= k < |grade| && 0 <= c < 7 ==>
          grade[k][c] == CelulaEsperada(eventos, ano.value, mes, inicio, TotalDias(mes, ano.value), k, c)
      ensures html == Cabecalho(MesPorExtenso(mes, false).value, ano.value) + "<tbody class=\"dias-mes\">" + CorpoHTML(grade) + "</table>"
    {
      var total := |DiasDoMes(mes, ano.value)|;
      var corpo;
      grade, corpo := Grade(eventos, ano.value, mes, semana - 1, total);
      html := Cabecalho(MesPorExtenso(mes, false).value, ano.value) + "<tbody class=\"dias-mes\">" + corpo + "</table>";
    }
  }
}
