// The string helpers of DLX\Ajudantes\Strings (dlx/ajudantes/strings.ajudante.php).
// Every regular expression is written out as a scanner over the language it accepts.

module Strings {
  import opened Wrappers
  import opened Text
  import opened Values

  // ------------------------------------------------------------ character classes

  /** PCRE's \s outside UTF mode: space, \t, \n, \v, \f, \r (also ucwords' default delimiters). */
  predicate IsPcreSpace(c: char)
  {
    c == ' ' || c == '\t' || c == '\n' || c == 11 as char || c == 12 as char || c == '\r'
  }

  /** PCRE's \w outside UTF mode: ASCII letters, digits and '_'. */
  predicate IsWordChar(c: char)
  {
    IsAsciiLetter(c) || IsDigit(c) || c == '_'
  }

  // --------------------------------------------------------------- removerAcentos

  /** The accented letters removerAcentos knows, mapped to their base letters. */
  function RemoverAcentoChar(c: char): char
  {
    match c
    case 'á' => 'a' case 'à' => 'a' case 'â' => 'a' case 'ã' => 'a'
    case 'Á' => 'A' case 'À' => 'A' case 'Â' => 'A' case 'Ã' => 'A'
    case 'é' => 'e' case 'è' => 'e' case 'ê' => 'e'
    case 'É' => 'E' case 'È' => 'E' case 'Ê' => 'E'
    case 'í' => 'i' case 'ì' => 'i' case 'î' => 'i'
    case 'Í' => 'I' case 'Ì' => 'I' case 'Î' => 'I'
    case 'ó' => 'o' case 'ò' => 'o' case 'ô' => 'o' case 'õ' => 'o'
    case 'Ó' => 'O' case 'Ò' => 'O' case 'Ô' => 'O' case 'Õ' => 'O'
    case 'ú' => 'u' case 'ù' => 'u' case 'û' => 'u'
    case 'Ú' => 'U' case 'Ù' => 'U' case 'Û' => 'U'
    case 'ç' => 'c' case 'Ç' => 'C'
    case _ => c
  }

  predicate IsAccented(c: char) { RemoverAcentoChar(c) != c }

  /** Every replacement is a plain ASCII letter, so a second pass leaves it alone. */
  lemma RemoverAcentoCharBase(c: char)
    ensures !IsAccented(RemoverAcentoChar(c))
    ensures IsAccented(c) ==> IsAsciiLetter(RemoverAcentoChar(c))
  {
  }

  /** removerAcentos: each listed accented letter becomes its base letter, keeping case. */
  function RemoverAcentos(s: string): (r: string)
    ensures |r| == |s|
    ensures forall i :: 0 <= i < |s| ==> r[i] == RemoverAcentoChar(s[i])
    decreases |s|
  {
    if s == [] then [] else [RemoverAcentoChar(s[0])] + RemoverAcentos(s[1..])
  }

  predicate NoAccents(s: string) { forall i :: 0 <= i < |s| ==> !IsAccented(s[i]) }

  /** No accent survives, unaccented text is untouched, and a second pass changes nothing. */
  lemma RemoverAcentosSpec(s: string)
    ensures NoAccents(RemoverAcentos(s))
    ensures NoAccents(s) ==> RemoverAcentos(s) == s
    ensures RemoverAcentos(RemoverAcentos(s)) == RemoverAcentos(s)
  {
    forall i | 0 <= i < |s| ensures !IsAccented(RemoverAcentos(s)[i]) {
      RemoverAcentoCharBase(s[i]);
    }
  }

  lemma RemoverAcentosExamples()
    ensures RemoverAcentos("Ação") == "Acao"
  {
  }

  // ------------------------------------------------------------------ ucwords

  /** ucwords from a position where `up` says whether the previous character was a delimiter. */
  function UcwordsFrom(s: string, up: bool): (r: string)
    ensures |r| == |s|
    decreases |s|
  {
    if s == [] then []
    else [if up then UpperChar(s[0]) else s[0]] + UcwordsFrom(s[1..], IsPcreSpace(s[0]))
  }

  /** ucwords: upper-case the first character of the text and every character after a delimiter. */
  function Ucwords(s: string): string
  {
    UcwordsFrom(s, true)
  }

  function Ucfirst(w: string): (r: string)
    ensures |r| == |w|
  {
    if w == [] then [] else [UpperChar(w[0])] + w[1..]
  }

  function Capitalized(ws: seq<string>): (r: seq<string>)
    ensures |r| == |ws|
    ensures forall i :: 0 <= i < |ws| ==> r[i] == Ucfirst(ws[i])
    decreases |ws|
  {
    if ws == [] then [] else [Ucfirst(ws[0])] + Capitalized(ws[1..])
  }

  function Concat(ws: seq<string>): string
    decreases |ws|
  {
    if ws == [] then "" else ws[0] + Concat(ws[1..])
  }

  predicate NoSpaces(w: string) { forall i :: 0 <= i < |w| ==> !IsPcreSpace(w[i]) }

  lemma {:induction false} UcwordsAppend(x: string, y: string, up: bool)
    ensures UcwordsFrom(x + y, up) ==
      UcwordsFrom(x, up) + UcwordsFrom(y, if x == [] then up else IsPcreSpace(x[|x| - 1]))
    decreases |x|
  {
    if x == [] {
      assert x + y == y;
    } else {
      assert (x + y)[1..] == x[1..] + y;
      UcwordsAppend(x[1..], y, IsPcreSpace(x[0]));
    }
  }

  lemma {:induction false} UcwordsPlain(w: string)
    requires NoSpaces(w)
    ensures UcwordsFrom(w, false) == w
    decreases |w|
  {
    if w != [] {
      UcwordsPlain(w[1..]);
      assert [w[0]] + w[1..] == w;
    }
  }

  lemma UcwordsWord(w: string)
    requires NoSpaces(w)
    ensures UcwordsFrom(w, true) == Ucfirst(w)
  {
    if w != [] {
      UcwordsPlain(w[1..]);
    }
  }

  /** ucwords over words joined by single spaces capitalises each word. */
  lemma {:induction false} UcwordsJoin(ws: seq<string>)
    requires forall i :: 0 <= i < |ws| ==> NoSpaces(ws[i])
    ensures Ucwords(Join(ws, " ")) == Join(Capitalized(ws), " ")
    decreases |ws|
  {
    if |ws| == 1 {
      UcwordsWord(ws[0]);
    } else if |ws| > 1 {
      var rest := Join(ws[1..], " ");
      UcwordsJoin(ws[1..]);
      UcwordsAppend(ws[0], " " + rest, true);
      UcwordsWord(ws[0]);
      var st := if ws[0] == [] then true else IsPcreSpace(ws[0][|ws[0]| - 1]);
      assert (" " + rest)[1..] == rest;
      assert UcwordsFrom(" " + rest, st) == " " + UcwordsFrom(rest, true);
      assert ws[0] + " " + rest == ws[0] + (" " + rest);
      assert Capitalized(ws)[1..] == Capitalized(ws[1..]);
    }
  }

  lemma {:induction false} RemoveSpacesJoin(ws: seq<string>)
    requires forall i :: 0 <= i < |ws| ==> ' ' !in ws[i]
    ensures ReplaceAll(Join(ws, " "), " ", "") == Concat(ws)
    decreases |ws|
  {
    if |ws| == 1 {
      ReplaceCharAbsent(ws[0], ' ', "");
      assert Concat(ws) == ws[0] + Concat([]);
    } else if |ws| > 1 {
      RemoveSpacesJoin(ws[1..]);
      ReplaceCharAppend(ws[0], " " + Join(ws[1..], " "), ' ', "");
      ReplaceCharAppend(" ", Join(ws[1..], " "), ' ', "");
      ReplaceCharAbsent(ws[0], ' ', "");
      assert ws[0] + " " + Join(ws[1..], " ") == ws[0] + (" " + Join(ws[1..], " "));
    }
  }

  // ------------------------------------------------------------- conveter2PSR

  /**
   * conveter2PSR: accents removed, '_' and '-' turned into spaces (explode and
   * implode), words capitalised by ucwords, spaces removed.
   */
  function Conveter2PSR(texto: string): (r: string)
    ensures ' ' !in r
  {
    var semAcentos := RemoverAcentos(texto);
    var semSublinhado := Join(Split(semAcentos, '_'), " ");
    var semHifen := Join(Split(semSublinhado, '-'), " ");
    ReplaceAllSemChar(Ucwords(semHifen), ' ');
    ReplaceAll(Ucwords(semHifen), " ", "")
  }

  /** A word the class-name conversions treat as one unit. */
  predicate PlainWord(w: string)
  {
    NoSpaces(w) && NoAccents(w) && '-' !in w && '_' !in w
  }

  lemma NoAccentsJoin(ws: seq<string>, sep: string)
    requires NoAccents(sep) && forall i :: 0 <= i < |ws| ==> NoAccents(ws[i])
    ensures NoAccents(Join(ws, sep))
  {
    var s := Join(ws, sep);
    forall i | 0 <= i < |s| ensures !IsAccented(s[i]) {
      JoinChars(ws, sep, s[i]);
    }
  }

  lemma UpperCharKeepsSpace(c: char)
    requires c != ' '
    ensures UpperChar(c) != ' '
  {
  }

  lemma PlainJoinNoUnderscore(ws: seq<string>)
    requires forall i :: 0 <= i < |ws| ==> PlainWord(ws[i])
    ensures RemoverAcentos(Join(ws, "-")) == Join(ws, "-")
    ensures '_' !in Join(ws, "-")
  {
    assert forall i :: 0 <= i < |ws| ==> NoAccents(ws[i]);
    assert NoAccents("-") by { assert !IsAccented('-'); }
    NoAccentsJoin(ws, "-");
    RemoverAcentosSpec(Join(ws, "-"));
    NoUnderscoreJoin(ws);
  }

  lemma NoUnderscoreJoin(ws: seq<string>)
    requires forall i :: 0 <= i < |ws| ==> '_' !in ws[i]
    ensures '_' !in Join(ws, "-")
  {
    if '_' in Join(ws, "-") {
      JoinChars(ws, "-", '_');
    }
  }

  lemma CapitalizedNoSpace(ws: seq<string>)
    requires forall i :: 0 <= i < |ws| ==> PlainWord(ws[i])
    ensures forall i :: 0 <= i < |ws| ==> ' ' !in Capitalized(ws)[i]
  {
    var caps := Capitalized(ws);
    forall i | 0 <= i < |caps| ensures ' ' !in caps[i] {
      UcfirstNoSpace(ws[i]);
    }
  }

  lemma UcfirstNoSpace(w: string)
    requires PlainWord(w)
    ensures ' ' !in Ucfirst(w)
  {
    if w != [] {
      UpperCharKeepsSpace(w[0]);
      assert Ucfirst(w) == [UpperChar(w[0])] + w[1..];
      assert ' ' !in w[1..];
    }
  }

  /** Hyphen-separated words become one capitalised identifier: "painel-dlx" gives "PainelDlx". */
  lemma Conveter2PSRWords(ws: seq<string>)
    requires |ws| >= 1 && forall i :: 0 <= i < |ws| ==> PlainWord(ws[i])
    ensures Conveter2PSR(Join(ws, "-")) == Concat(Capitalized(ws))
  {
    var s := Join(ws, "-");
    PlainJoinNoUnderscore(ws);
    SplitNoSeparator(s, '_');
    var semSublinhado := Join(Split(RemoverAcentos(s), '_'), " ");
    assert semSublinhado == s;
    SplitJoin(ws, '-');
    var semHifen := Join(Split(semSublinhado, '-'), " ");
    assert semHifen == Join(ws, " ");
    forall i | 0 <= i < |ws| ensures NoSpaces(ws[i]) {
    }
    UcwordsJoin(ws);
    CapitalizedNoSpace(ws);
    RemoveSpacesJoin(Capitalized(ws));
  }

  lemma Conveter2PSRExample()
    ensures Conveter2PSR("painel-dlx") == "PainelDlx"
  {
    var ws := ["painel", "dlx"];
    MinusculasPlain(ws[0]);
    MinusculasPlain(ws[1]);
    assert Join(ws, "-") == "painel-dlx";
    Conveter2PSRWords(ws);
    CapitalizedExample(ws);
  }

  lemma CapitalizedExample(ws: seq<string>)
    requires ws == ["painel", "dlx"]
    ensures Concat(Capitalized(ws)) == "PainelDlx"
  {
    var caps := Capitalized(ws);
    assert caps[0] == [UpperChar('p')] + "ainel";
    assert caps[1] == [UpperChar('d')] + "lx";
    assert caps[1..] == [caps[1]];
    assert Concat(caps[1..]) == caps[1] + Concat([]);
  }

  /** A word of lower-case ASCII letters has no blank, accent, hyphen or underscore. */
  lemma MinusculasPlain(w: string)
    requires forall i :: 0 <= i < |w| ==> 'a' <= w[i] <= 'z'
    ensures PlainWord(w)
  {
    forall i | 0 <= i < |w| ensures !IsAccented(w[i]) {
      assert RemoverAcentoChar(w[i]) == w[i];
    }
  }

  // ------------------------------------------------------------------ PSR2URL

  /** preg_replace('~([a-z])([A-Z])~', '${1}-${2}'): a hyphen at each lower-to-upper boundary. */
  function InsertHyphens(s: string): (r: string)
    decreases |s|
  {
    if |s| < 2 then s
    else if IsLowerAscii(s[0]) && IsUpperAscii(s[1]) then [s[0], '-', s[1]] + InsertHyphens(s[2..])
    else [s[0]] + InsertHyphens(s[1..])
  }

  /** Hyphenation only adds characters. */
  lemma {:induction false} InsertHyphensAlonga(s: string)
    ensures |InsertHyphens(s)| >= |s|
    decreases |s|
  {
    if |s| >= 2 {
      if IsLowerAscii(s[0]) && IsUpperAscii(s[1]) {
        InsertHyphensAlonga(s[2..]);
      } else {
        InsertHyphensAlonga(s[1..]);
      }
    }
  }

  /** PSR2URL: hyphenate the camel-case boundaries, then lower-case everything. */
  function PSR2URL(psr: string): (r: string)
    ensures NoUpper(r) && |r| >= |psr|
  {
    LowerIsLower(InsertHyphens(psr));
    InsertHyphensAlonga(psr);
    Lower(InsertHyphens(psr))
  }

  /** No run of the scan skips a boundary: the result has a hyphen before every upper-case letter that followed a lower-case one. */
  lemma {:induction false} InsertHyphensBoundary(s: string, i: int)
    requires 0 <= i < |s| - 1 && IsLowerAscii(s[i]) && IsUpperAscii(s[i + 1])
    ensures Occurs(InsertHyphens(s), [s[i], '-', s[i + 1]])
    decreases |s|
  {
    var p := [s[i], '-', s[i + 1]];
    var r := InsertHyphens(s);
    if i == 0 {
      assert r[0..3] == p;
      assert OccursAt(r, p, 0);
    } else if IsLowerAscii(s[0]) && IsUpperAscii(s[1]) {
      // s[1] is upper case, so i is at least 2
      assert r == [s[0], '-', s[1]] + InsertHyphens(s[2..]);
      InsertHyphensBoundary(s[2..], i - 2);
      var j :| 0 <= j <= |InsertHyphens(s[2..])| - |p| && OccursAt(InsertHyphens(s[2..]), p, j);
      assert r[j + 3..j + 3 + |p|] == InsertHyphens(s[2..])[j..j + |p|];
      assert OccursAt(r, p, j + 3);
    } else {
      assert r == [s[0]] + InsertHyphens(s[1..]);
      InsertHyphensBoundary(s[1..], i - 1);
      var j :| 0 <= j <= |InsertHyphens(s[1..])| - |p| && OccursAt(InsertHyphens(s[1..]), p, j);
      assert r[j + 1..j + 1 + |p|] == InsertHyphens(s[1..])[j..j + |p|];
      assert OccursAt(r, p, j + 1);
    }
  }

  predicate LowerWord(w: string)
  {
    |w| >= 2 && forall i :: 0 <= i < |w| ==> IsLowerAscii(w[i])
  }

  lemma InsertHyphensLowerRun(t: string, rest: string)
    requires |t| >= 1 && forall i :: 0 <= i < |t| ==> IsLowerAscii(t[i])
    requires rest == [] || IsUpperAscii(rest[0])
    ensures InsertHyphens(t + rest) == if rest == [] then t else t + "-" + InsertHyphens(rest)
  {
    var x := if rest == [] then [] else "-" + InsertHyphens(rest);
    InsertHyphensLowerRunTail(t, rest, x);
    if rest == [] {
      assert t + x == t;
    } else {
      assert t + x == t + "-" + InsertHyphens(rest);
    }
  }

  /** A run of lower-case letters is copied, followed by the hyphenated rest x. */
  lemma {:induction false} InsertHyphensLowerRunTail(t: string, rest: string, x: string)
    requires |t| >= 1 && forall i :: 0 <= i < |t| ==> IsLowerAscii(t[i])
    requires rest == [] || IsUpperAscii(rest[0])
    requires x == if rest == [] then [] else "-" + InsertHyphens(rest)
    ensures InsertHyphens(t + rest) == t + x
    decreases |t|
  {
    if |t| == 1 {
      InsertHyphensLowerLast(t[0], rest, x);
      assert t + rest == [t[0]] + rest && t == [t[0]];
    } else {
      var u := t[1..];
      InsertHyphensLowerCons(t, rest, u);
      InsertHyphensLowerRunTail(u, rest, x);
      ConsConcat(t, x);
    }
  }

  lemma InsertHyphensLowerCons(t: string, rest: string, u: string)
    requires |t| >= 2 && IsLowerAscii(t[1]) && u == t[1..]
    ensures InsertHyphens(t + rest) == [t[0]] + InsertHyphens(u + rest)
  {
    var s := t + rest;
    assert s[1..] == u + rest;
    assert s[1] == t[1];
  }

  /** The last lower-case letter of a run: a hyphen follows when an upper-case letter comes next. */
  lemma InsertHyphensLowerLast(c: char, rest: string, x: string)
    requires IsLowerAscii(c) && (rest == [] || IsUpperAscii(rest[0]))
    requires x == if rest == [] then [] else "-" + InsertHyphens(rest)
    ensures InsertHyphens([c] + rest) == [c] + x
  {
    var s := [c] + rest;
    if rest != [] {
      assert s[2..] == rest[1..];
      assert InsertHyphens(s) == [c, '-', rest[0]] + InsertHyphens(rest[1..]);
      assert InsertHyphens(rest) == [rest[0]] + InsertHyphens(rest[1..]);
    }
  }

  lemma {:induction false} InsertHyphensWords(ws: seq<string>)
    requires |ws| >= 1 && forall i :: 0 <= i < |ws| ==> LowerWord(ws[i])
    ensures InsertHyphens(Concat(Capitalized(ws))) == Join(Capitalized(ws), "-")
    decreases |ws|
  {
    var w := ws[0];
    var cap := Ucfirst(w);
    var rest := Concat(Capitalized(ws[1..]));
    assert Capitalized(ws)[1..] == Capitalized(ws[1..]);
    assert Concat(Capitalized(ws)) == cap + rest;
    if |ws| > 1 {
      InsertHyphensWords(ws[1..]);
      assert Capitalized(ws[1..])[0] == Ucfirst(ws[1]);
      assert rest == Ucfirst(ws[1]) + Concat(Capitalized(ws[2..])) by {
        assert Capitalized(ws[1..])[1..] == Capitalized(ws[2..]);
      }
    }
    assert rest == [] || IsUpperAscii(rest[0]);
    assert (cap + rest)[1..] == w[1..] + rest;
    InsertHyphensLowerRun(w[1..], rest);
  }

  lemma {:induction false} LowerJoinCapitalized(ws: seq<string>)
    requires forall i :: 0 <= i < |ws| ==> LowerWord(ws[i])
    ensures Lower(Join(Capitalized(ws), "-")) == Join(ws, "-")
    decreases |ws|
  {
    if |ws| >= 1 {
      var w := ws[0];
      assert Lower(Ucfirst(w)) == w;
      if |ws| > 1 {
        LowerJoinCapitalized(ws[1..]);
        assert Capitalized(ws)[1..] == Capitalized(ws[1..]);
        LowerAppend(Ucfirst(w), "-" + Join(Capitalized(ws[1..]), "-"));
        LowerAppend("-", Join(Capitalized(ws[1..]), "-"));
        assert Ucfirst(w) + "-" + Join(Capitalized(ws[1..]), "-") == Ucfirst(w) + ("-" + Join(Capitalized(ws[1..]), "-"));
      }
    }
  }

  lemma LowerWordPlain(w: string)
    requires LowerWord(w)
    ensures PlainWord(w)
  {
    forall i | 0 <= i < |w| ensures !IsAccented(w[i]) && !IsPcreSpace(w[i]) && w[i] != '-' && w[i] != '_' {
      assert IsLowerAscii(w[i]);
    }
  }

  /**
   * PSR2URL undoes conveter2PSR on hyphenated lower-case names whose parts have
   * at least two letters: "painel-dlx" gives "PainelDlx" and back.
   */
  lemma PSR2URLInvertsConveter2PSR(ws: seq<string>)
    requires |ws| >= 1 && forall i :: 0 <= i < |ws| ==> LowerWord(ws[i])
    ensures PSR2URL(Conveter2PSR(Join(ws, "-"))) == Join(ws, "-")
  {
    forall i | 0 <= i < |ws| ensures PlainWord(ws[i]) {
      LowerWordPlain(ws[i]);
    }
    Conveter2PSRWords(ws);
    InsertHyphensWords(ws);
    LowerJoinCapitalized(ws);
  }

  // --------------------------------------------------------------- bool2humano

  /** bool2humano: the [false, true] words of the language, or the "not supported" message. */
  function Bool2Humano(b: Value, idioma: string): (r: string)
    ensures idioma == "pt_BR" ==> r == (if FilterBoolean(b) then "Sim" else "Não")
    ensures idioma == "en_US" ==> r == (if FilterBoolean(b) then "Yes" else "No")
    ensures idioma == "es_ES" ==> r == (if FilterBoolean(b) then "Sí" else "No")
    ensures idioma !in {"pt_BR", "en_US", "es_ES"} ==> r == "Idioma <b>" + idioma + "</b> não suportado"
  {
    var simNao := [("pt_BR", ["Não", "Sim"]), ("en_US", ["No", "Yes"]), ("es_ES", ["No", "Sí"])];
    var i := if FilterBoolean(b) then 1 else 0;
    if idioma == simNao[0].0 then simNao[0].1[i]
    else if idioma == simNao[1].0 then simNao[1].1[i]
    else if idioma == simNao[2].0 then simNao[2].1[i]
    else "Idioma <b>" + idioma + "</b> não suportado"
  }

  /**
   * filter_var(v, FILTER_VALIDATE_BOOLEAN) read as a bool: "1", "true", "on",
   * "yes" (any case, after trimming the filters' blanks) and true.
   */
  function FilterBoolean(v: Value): bool
  {
    match v
    case Bool(b) => b
    case Int(i) => i == 1
    case Str(s) => Lower(Trim(s, BRANCOS_FILTRO)) in {"1", "true", "on", "yes"}
    case _ => false
  }

  // --------------------------------------------------------------- previaTexto

  /**
   * A character of an attribute value in previaTexto's tag pattern: a word
   * character, a blank or one of "#-:/._;%?". The pattern is written in a PHP
   * string, where a doubled backslash collapses, so the class holds no backslash.
   */
  predicate IsAttrValueChar(c: char)
  {
    IsWordChar(c) || IsPcreSpace(c) || c in "#-:/._;%?"
  }

  predicate IsAttrNameChar(c: char)
  {
    IsWordChar(c) || c == '-'
  }

  /** The length of `(\s+[\w\d\-_]+="[...]+")*\/?>` at the start of s, when it matches. */
  function TagTailLength(s: string): (r: Option<nat>)
    ensures r.Some? ==> 1 <= r.value <= |s|
    decreases |s|
  {
    if s == [] then None
    else if s[0] == '>' then Some(1)
    else if s[0] == '/' then (if |s| >= 2 && s[1] == '>' then Some(2) else None)
    else
      var sp := RunLength(s, IsPcreSpace);
      var nm := RunLength(s[sp..], IsAttrNameChar);
      var at := sp + nm;
      if sp == 0 || nm == 0 || at + 1 >= |s| || s[at] != '=' || s[at + 1] != '"' then None
      else
        var vl := RunLength(s[at + 2..], IsAttrValueChar);
        var close := at + 2 + vl;
        if vl == 0 || close >= |s| || s[close] != '"' then None
        else match TagTailLength(s[close + 1..])
          case None => None
          case Some(n) => Some(close + 1 + n)
  }

  /** The length of an HTML tag `\</?[\w]+(...)*\/?>` at the start of s, when there is one. */
  function TagLength(s: string): (r: Option<nat>)
    ensures r.Some? ==> 3 <= r.value <= |s|
  {
    if |s| < 3 || s[0] != '<' then None
    else
      var sl := if s[1] == '/' then 2 else 1;
      var nm := RunLength(s[sl..], IsWordChar);
      if nm == 0 then None
      else match TagTailLength(s[sl + nm..])
        case None => None
        case Some(n) => Some(sl + nm + n)
  }

  /** Every tag is replaced by one space. */
  function StripTags(s: string): string
    decreases |s|
  {
    if s == [] then []
    else match TagLength(s)
      case Some(n) => " " + StripTags(s[n..])
      case None => [s[0]] + StripTags(s[1..])
  }

  /** preg_replace('~\s{2,}~', ' '): every run of two or more blanks becomes one space. */
  function CollapseSpaces(s: string): (r: string)
    ensures forall i :: 0 <= i < |r| - 1 ==> !(IsPcreSpace(r[i]) && IsPcreSpace(r[i + 1]))
    ensures r == [] <==> s == []
    ensures s != [] ==> (IsPcreSpace(r[0]) <==> IsPcreSpace(s[0]))
    decreases |s|
  {
    if s == [] then []
    else
      var n := RunLength(s, IsPcreSpace);
      if n >= 2 then " " + CollapseSpaces(s[n..])
      else [s[0]] + CollapseSpaces(s[1..])
  }

  /** substr(s, 0, len) on a byte string; a negative length drops that many from the end. */
  function Prefix(s: string, len: int): (r: string)
    ensures |r| <= |s| && r == s[..|r|]
    ensures len >= 0 ==> |r| == if len <= |s| then len else |s|
  {
    if len >= 0 then (if len <= |s| then s[..len] else s)
    else if |s| + len > 0 then s[..|s| + len] else []
  }

  /** The text previaTexto measures: tags blanked, blank runs collapsed, then trimmed. */
  function TextoLimpo(texto: string): string
  {
    Trim(CollapseSpaces(StripTags(texto)), WHITESPACE)
  }

  /**
   * previaTexto: strlen and substr count bytes, so the cleaned text is measured and cut in
   * its UTF-8 bytes; when it has at most qtde bytes it is returned whole, otherwise its first
   * qtde bytes, trimmed, followed by the bytes of the ellipsis.
   */
  function PreviaTexto(texto: string, qtde: int, reticencias: string): (r: string)
    ensures Bytes(r)
    ensures |Utf8(TextoLimpo(texto))| <= qtde ==> r == Utf8(TextoLimpo(texto))
    ensures |Utf8(TextoLimpo(texto))| > qtde ==>
      exists p :: p == Trim(Prefix(Utf8(TextoLimpo(texto)), qtde), WHITESPACE) && r == p + Utf8(reticencias)
    ensures |Utf8(TextoLimpo(texto))| > qtde >= 0 ==> |r| <= qtde + |Utf8(reticencias)|
  {
    var limpo := Utf8(TextoLimpo(texto));
    if |limpo| <= qtde then limpo
    else
      var p := Trim(Prefix(limpo, qtde), WHITESPACE);
      TrimBytes(Prefix(limpo, qtde));
      p + Utf8(reticencias)
  }

  lemma TrimBytes(s: string)
    requires Bytes(s)
    ensures Bytes(Trim(s, WHITESPACE))
  {
    TrimSlice(s, WHITESPACE);
    var r := Trim(s, WHITESPACE);
    var i :| OccursAt(s, r, i);
    forall k | 0 <= k < |r| ensures r[k] as int < 256 {
      assert r[k] == s[i + k];
    }
  }

  /** For plain ASCII text, bytes and characters agree: the preview is the character-wise one. */
  lemma PreviaTextoAscii(texto: string, qtde: int, reticencias: string)
    requires Ascii(TextoLimpo(texto)) && Ascii(reticencias)
    ensures var limpo := TextoLimpo(texto);
      PreviaTexto(texto, qtde, reticencias) ==
        if |limpo| <= qtde then limpo else Trim(Prefix(limpo, qtde), WHITESPACE) + reticencias
  {
    Utf8Ascii(TextoLimpo(texto));
    Utf8Ascii(reticencias);
  }

  /** A text of fewer characters than qtde is still cut when its accented letters take two bytes. */
  lemma PreviaTextoCortaAcentos(texto: string, reticencias: string)
    requires TextoLimpo(texto) == "ãã"
    ensures PreviaTexto(texto, 3, reticencias) == [0xC3 as char, 0xA3 as char, 0xC3 as char] + Utf8(reticencias)
  {
    var b := [0xC3 as char, 0xA3 as char, 0xC3 as char, 0xA3 as char];
    var p := [0xC3 as char, 0xA3 as char, 0xC3 as char];
    BytesDeAA();
    CorteSemBrancos(b, p);
    PreviaTextoCorte(texto, 3, reticencias, b, p);
  }

  lemma PreviaTextoCorte(texto: string, qtde: int, reticencias: string, l: string, p: string)
    requires l == Utf8(TextoLimpo(texto)) && |l| > qtde
    requires p == Trim(Prefix(l, qtde), WHITESPACE)
    ensures PreviaTexto(texto, qtde, reticencias) == p + Utf8(reticencias)
  {
  }

  lemma BytesDeAA()
    ensures Utf8("ãã") == [0xC3 as char, 0xA3 as char, 0xC3 as char, 0xA3 as char]
  {
    assert Utf8Char('ã') == [0xC3 as char, 0xA3 as char];
    assert Utf8("ã") == [0xC3 as char, 0xA3 as char];
    assert "ãã"[1..] == "ã";
  }

  lemma CorteSemBrancos(b: string, p: string)
    requires b == [0xC3 as char, 0xA3 as char, 0xC3 as char, 0xA3 as char]
    requires p == [0xC3 as char, 0xA3 as char, 0xC3 as char]
    ensures Trim(Prefix(b, 3), WHITESPACE) == p
  {
    assert Prefix(b, 3) == p;
    assert TrimLeft(p, WHITESPACE) == p;
    assert TrimRight(p, WHITESPACE) == p;
  }

  /** No two blanks in a row. */
  predicate SemBrancosDuplos(t: string)
  {
    forall i :: 0 <= i < |t| - 1 ==> !(IsPcreSpace(t[i]) && IsPcreSpace(t[i + 1]))
  }

  /** The cleaned text never holds two blanks in a row. */
  lemma TextoLimpoNoDoubleBlank(texto: string)
    ensures SemBrancosDuplos(TextoLimpo(texto))
  {
    var c := CollapseSpaces(StripTags(texto));
    assert SemBrancosDuplos(c);
    TrimSemBrancosDuplos(c);
  }

  lemma TrimSemBrancosDuplos(c: string)
    requires SemBrancosDuplos(c)
    ensures SemBrancosDuplos(Trim(c, WHITESPACE))
  {
    var l := TrimLeft(c, WHITESPACE);
    assert l == c[|c| - |l|..|c|];
    FatiaSemBrancosDuplos(c, |c| - |l|, |c|);
    var t := TrimRight(l, WHITESPACE);
    assert t == l[0..|t|];
    FatiaSemBrancosDuplos(l, 0, |t|);
  }

  lemma FatiaSemBrancosDuplos(c: string, lo: nat, hi: nat)
    requires lo <= hi <= |c| && SemBrancosDuplos(c)
    ensures SemBrancosDuplos(c[lo..hi])
  {
    var t := c[lo..hi];
    forall i | 0 <= i < |t| - 1 ensures !(IsPcreSpace(t[i]) && IsPcreSpace(t[i + 1])) {
      assert t[i] == c[lo + i] && t[i + 1] == c[lo + i + 1];
    }
  }

  lemma PreviaTextoExample()
    ensures TagLength("<b>") == Some(3)
    ensures TagLength("</b>") == Some(4)
    ensures TagLength("<b") == None
  {
    assert RunLength("b>", IsWordChar) == 1 by {
      assert "b>"[1..] == ">";
    }
    assert TagTailLength(">") == Some(1);
    assert "<b>"[1..] == "b>" && "b>"[1..] == ">";
    assert "</b>"[2..] == "b>";
  }

  // ---------------------------------------------------------------- humano2URL

  /** preg_replace('~[\W\s/\.ªº]+~', '-'): every run of non-word characters becomes one hyphen. */
  function HyphenateNonWord(s: string): (r: string)
    ensures forall i :: 0 <= i < |r| ==> IsWordChar(r[i]) || r[i] == '-'
    ensures forall i :: 0 <= i < |r| - 1 ==> !(r[i] == '-' && r[i + 1] == '-')
    ensures r == [] <==> s == []
    ensures s != [] ==> (r[0] == '-' <==> !IsWordChar(s[0]))
    ensures forall i :: 0 <= i < |r| ==> IsWordChar(r[i]) ==> r[i] in s
    decreases |s|
  {
    if s == [] then []
    else if IsWordChar(s[0]) then [s[0]] + HyphenateNonWord(s[1..])
    else
      var n := RunLength(s, c => !IsWordChar(c));
      "-" + HyphenateNonWord(s[n..])
  }

  /** humano2URL: accents removed, lower-cased, trimmed, non-word runs turned into single hyphens. */
  function Humano2URL(texto: string): (r: string)
    ensures forall i :: 0 <= i < |r| ==> (IsWordChar(r[i]) && !IsUpperAscii(r[i])) || r[i] == '-'
    ensures forall i :: 0 <= i < |r| - 1 ==> !(r[i] == '-' && r[i + 1] == '-')
  {
    var base := Trim(Lower(RemoverAcentos(texto)), WHITESPACE);
    LowerIsLower(RemoverAcentos(texto));
    TrimNoUpper(Lower(RemoverAcentos(texto)), WHITESPACE);
    HyphenateNonWord(base)
  }

  /** The word characters of s, in order. */
  function WordChars(s: string): (r: string)
    ensures forall i :: 0 <= i < |r| ==> IsWordChar(r[i])
    decreases |s|
  {
    if s == [] then [] else (if IsWordChar(s[0]) then [s[0]] else []) + WordChars(s[1..])
  }

  /** s without its hyphens. */
  function SemHifens(s: string): (r: string)
    ensures '-' !in r
    decreases |s|
  {
    if s == [] then [] else (if s[0] != '-' then [s[0]] else []) + SemHifens(s[1..])
  }

  /** A leading run of non-word characters contributes no word character. */
  lemma {:induction false} WordCharsSkip(s: string, n: nat)
    requires n <= |s| && forall i :: 0 <= i < n ==> !IsWordChar(s[i])
    ensures WordChars(s) == WordChars(s[n..])
    decreases n
  {
    if n > 0 {
      WordCharsSkip(s[1..], n - 1);
      assert s[1..][n - 1..] == s[n..];
    }
  }

  /** Hyphenation only replaces non-word runs: without its hyphens the result is the input's word characters. */
  lemma {:induction false} HyphenatePreservesWords(s: string)
    ensures SemHifens(HyphenateNonWord(s)) == WordChars(s)
    decreases |s|
  {
    if s != [] {
      if IsWordChar(s[0]) {
        HyphenatePreservesWords(s[1..]);
        assert s[0] != '-';
        var h := [s[0]] + HyphenateNonWord(s[1..]);
        assert h[0] == s[0] && h[1..] == HyphenateNonWord(s[1..]);
      } else {
        var n := RunLength(s, c => !IsWordChar(c));
        HyphenatePreservesWords(s[n..]);
        WordCharsSkip(s, n);
        var h := "-" + HyphenateNonWord(s[n..]);
        assert h[0] == '-' && h[1..] == HyphenateNonWord(s[n..]);
      }
    }
  }

  /**
   * humano2URL keeps every word character of the trimmed, lower-cased, unaccented text, in
   * order: removing the hyphens from the slug gives exactly those characters.
   */
  lemma Humano2URLPalavras(texto: string)
    ensures SemHifens(Humano2URL(texto)) == WordChars(Trim(Lower(RemoverAcentos(texto)), WHITESPACE))
  {
    HyphenatePreservesWords(Trim(Lower(RemoverAcentos(texto)), WHITESPACE));
  }

  lemma TrimNoUpper(s: string, cs: set<char>)
    requires NoUpper(s)
    ensures NoUpper(Trim(s, cs))
  {
    var l := TrimLeft(s, cs);
    var t := Trim(s, cs);
    forall i | 0 <= i < |t| ensures !IsUpperAscii(t[i]) {
      assert t[i] == l[i] == s[|s| - |l| + i];
    }
  }

  lemma Humano2URLExample()
    ensures HyphenateNonWord("a b") == "a-b"
  {
    HyphenateBlankB();
    assert IsWordChar('a');
    assert "a b"[1..] == " b";
  }

  lemma HyphenateBlankB()
    ensures HyphenateNonWord(" b") == "-b"
  {
    assert !IsWordChar(' ') && IsWordChar('b');
    assert HyphenateNonWord("b") == "b" by {
      assert "b"[1..] == [];
    }
    assert RunLength(" b", c => !IsWordChar(c)) == 1 by {
      assert " b"[1..] == "b" && "b"[1..] == [];
    }
    assert " b"[1..] == "b";
  }

  // ------------------------------------------------------------ plural2singular

  predicate CharMatches(c: char, p: char, ci: bool)
  {
    c == p || (ci && LowerChar(c) == LowerChar(p))
  }

  /** pat matches at the start of s (case-insensitively when ci). */
  predicate MatchHere(s: string, pat: string, ci: bool)
  {
    |pat| <= |s| && forall i :: 0 <= i < |pat| ==> CharMatches(s[i], pat[i], ci)
  }

  /**
   * preg_replace('~PAT(\s|$)~', 'REP${1}'): each occurrence of PAT followed by a
   * blank or by the end becomes REP, keeping the blank.
   */
  function ReplaceFinal(s: string, pat: string, rep: string, ci: bool): (r: string)
    requires |pat| > 0
    decreases |s|
  {
    if s == [] then []
    else if MatchHere(s, pat, ci) && (|s| == |pat| || IsPcreSpace(s[|pat|])) then
      if |s| == |pat| then rep else rep + [s[|pat|]] + ReplaceFinal(s[|pat| + 1..], pat, rep, ci)
    else [s[0]] + ReplaceFinal(s[1..], pat, rep, ci)
  }

  /** What ReplaceFinal does to one word: the suffix PAT becomes REP. */
  function FixWord(w: string, pat: string, rep: string, ci: bool): string
  {
    if |pat| <= |w| && MatchHere(w[|w| - |pat|..], pat, ci) then w[..|w| - |pat|] + rep else w
  }

  /** A replacement no longer than its pattern never lengthens the text. */
  lemma {:induction false} ReplaceFinalEncurta(s: string, pat: string, rep: string, ci: bool)
    requires |pat| > 0 && |rep| <= |pat|
    ensures |ReplaceFinal(s, pat, rep, ci)| <= |s|
    decreases |s|
  {
    if s != [] {
      if MatchHere(s, pat, ci) && (|s| == |pat| || IsPcreSpace(s[|pat|])) {
        if |s| != |pat| {
          ReplaceFinalEncurta(s[|pat| + 1..], pat, rep, ci);
        }
      } else {
        ReplaceFinalEncurta(s[1..], pat, rep, ci);
      }
    }
  }

  /** plural2singular: the three replacements, in order. */
  function Plural2Singular(texto: string): (r: string)
    ensures |r| <= |texto|
  {
    var a := ReplaceFinal(texto, "res", "r", false);
    var b := ReplaceFinal(a, "ões", "ão", false);
    ReplaceFinalEncurta(texto, "res", "r", false);
    ReplaceFinalEncurta(a, "ões", "ão", false);
    ReplaceFinalEncurta(b, "s", "", true);
    ReplaceFinal(b, "s", "", true)
  }

  /** A pattern free of blanks cannot match across a blank. */
  lemma NoMatchAtBlank(s: string, pat: string, ci: bool, k: int)
    requires NoSpaces(pat) && 0 <= k < |pat| && k < |s| && IsPcreSpace(s[k])
    ensures !MatchHere(s, pat, ci)
  {
    assert !CharMatches(s[k], pat[k], ci);
  }

  /** Past a word longer than the pattern, the first character is kept and the rest is a shorter word. */
  lemma FixWordCons(w: string, pat: string, rep: string, ci: bool)
    requires |w| > |pat|
    ensures FixWord(w, pat, rep, ci) == [w[0]] + FixWord(w[1..], pat, rep, ci)
  {
    assert w[1..][|w[1..]| - |pat|..] == w[|w| - |pat|..];
    assert w[1..][..|w[1..]| - |pat|] == w[1..|w| - |pat|];
    assert [w[0]] + w[1..] == w;
    assert [w[0]] + w[1..|w| - |pat|] == w[..|w| - |pat|];
  }

  /** Where the pattern does not end the word, ReplaceFinal keeps the first character. */
  lemma {:induction false} ReplaceFinalSkip(w: string, tail: string, pat: string, rep: string, ci: bool)
    requires |pat| > 0 && NoSpaces(pat) && NoSpaces(w) && w != [] && |w| != |pat|
    requires tail == [] || IsPcreSpace(tail[0])
    ensures ReplaceFinal(w + tail, pat, rep, ci) == [w[0]] + ReplaceFinal(w[1..] + tail, pat, rep, ci)
  {
    var s := w + tail;
    assert s[1..] == w[1..] + tail;
    if |w| < |pat| && |pat| <= |s| {
      NoMatchAtBlank(s, pat, ci, |w|);
    }
    if |w| > |pat| {
      assert s[|pat|] == w[|pat|];
    }
  }

  lemma {:induction false} ReplaceFinalWord(w: string, tail: string, pat: string, rep: string, ci: bool)
    requires |pat| > 0 && NoSpaces(pat) && NoSpaces(w)
    requires tail == [] || IsPcreSpace(tail[0])
    ensures ReplaceFinal(w + tail, pat, rep, ci) ==
      FixWord(w, pat, rep, ci) + (if tail == [] then [] else [tail[0]] + ReplaceFinal(tail[1..], pat, rep, ci))
    decreases |w|
  {
    var s := w + tail;
    if w == [] {
      assert s == tail;
      if tail != [] {
        NoMatchAtBlank(tail, pat, ci, 0);
      }
    } else if |w| == |pat| {
      ReplaceFinalExact(w, tail, pat, rep, ci);
    } else {
      var x := if tail == [] then [] else [tail[0]] + ReplaceFinal(tail[1..], pat, rep, ci);
      ReplaceFinalSkip(w, tail, pat, rep, ci);
      ReplaceFinalWord(w[1..], tail, pat, rep, ci);
      if |w| > |pat| {
        FixWordCons(w, pat, rep, ci);
      } else {
        assert FixWord(w, pat, rep, ci) == w && FixWord(w[1..], pat, rep, ci) == w[1..];
        assert w == [w[0]] + w[1..];
      }
      ConsAssoc(w[0], FixWord(w[1..], pat, rep, ci), x, FixWord(w, pat, rep, ci));
    }
  }

  lemma ReplaceFinalExact(w: string, tail: string, pat: string, rep: string, ci: bool)
    requires |pat| > 0 && NoSpaces(pat) && NoSpaces(w) && |w| == |pat|
    requires tail == [] || IsPcreSpace(tail[0])
    ensures ReplaceFinal(w + tail, pat, rep, ci) ==
      FixWord(w, pat, rep, ci) + (if tail == [] then [] else [tail[0]] + ReplaceFinal(tail[1..], pat, rep, ci))
  {
    var s := w + tail;
    MatchPrefix(s, w, pat, ci);
    if MatchHere(w, pat, ci) {
      assert w[|w| - |pat|..] == w && w[..0] == [];
      assert FixWord(w, pat, rep, ci) == rep;
      if tail != [] {
        assert s[|pat|] == tail[0];
        assert s[|pat| + 1..] == tail[1..];
      } else {
        assert |s| == |pat|;
      }
    } else {
      assert w[|w| - |pat|..] == w;
      ReplaceFinalSkip2(w, tail, pat, rep, ci);
    }
  }

  /** Matching at the start depends only on the pattern-long prefix. */
  lemma MatchPrefix(s: string, w: string, pat: string, ci: bool)
    requires |w| == |pat| <= |s| && s[..|pat|] == w
    ensures MatchHere(s, pat, ci) <==> MatchHere(w, pat, ci)
  {
    assert forall i :: 0 <= i < |pat| ==> s[i] == w[i];
  }

  /** A word as long as the pattern that does not match it is copied through. */
  lemma {:induction false} ReplaceFinalSkip2(w: string, tail: string, pat: string, rep: string, ci: bool)
    requires |pat| > 0 && NoSpaces(pat) && NoSpaces(w) && |w| == |pat| && !MatchHere(w, pat, ci)
    requires tail == [] || IsPcreSpace(tail[0])
    ensures ReplaceFinal(w + tail, pat, rep, ci) ==
      w + (if tail == [] then [] else [tail[0]] + ReplaceFinal(tail[1..], pat, rep, ci))
  {
    var s := w + tail;
    assert s[..|pat|] == w;
    MatchPrefix(s, w, pat, ci);
    assert !MatchHere(s, pat, ci);
    assert ReplaceFinal(s, pat, rep, ci) == [s[0]] + ReplaceFinal(s[1..], pat, rep, ci);
    var u := w[1..];
    assert s[1..] == u + tail;
    ShortWordCopied(u, tail, pat, rep, ci);
    var x := if tail == [] then [] else [tail[0]] + ReplaceFinal(tail[1..], pat, rep, ci);
    ConsConcat(w, x);
  }

  /** A word shorter than the pattern, followed by a blank or by the end, is copied through. */
  lemma {:induction false} ShortWordCopied(w: string, tail: string, pat: string, rep: string, ci: bool)
    requires |pat| > 0 && NoSpaces(pat) && NoSpaces(w) && |w| < |pat|
    requires tail == [] || IsPcreSpace(tail[0])
    ensures ReplaceFinal(w + tail, pat, rep, ci) ==
      w + (if tail == [] then [] else [tail[0]] + ReplaceFinal(tail[1..], pat, rep, ci))
    decreases |w|
  {
    var s := w + tail;
    if w == [] {
      assert s == tail;
      if tail != [] {
        NoMatchAtBlank(tail, pat, ci, 0);
      }
    } else {
      ReplaceFinalSkip(w, tail, pat, rep, ci);
      ShortWordCopied(w[1..], tail, pat, rep, ci);
      assert [w[0]] + w[1..] == w;
    }
  }

  function FixWords(ws: seq<string>, pat: string, rep: string, ci: bool): (r: seq<string>)
    ensures |r| == |ws|
    ensures forall i :: 0 <= i < |ws| ==> r[i] == FixWord(ws[i], pat, rep, ci)
    decreases |ws|
  {
    if ws == [] then [] else [FixWord(ws[0], pat, rep, ci)] + FixWords(ws[1..], pat, rep, ci)
  }

  /** On words separated by single spaces, the replacement acts on each word's ending alone. */
  lemma {:induction false} ReplaceFinalWords(ws: seq<string>, pat: string, rep: string, ci: bool)
    requires |pat| > 0 && NoSpaces(pat)
    requires forall i :: 0 <= i < |ws| ==> NoSpaces(ws[i])
    ensures ReplaceFinal(Join(ws, " "), pat, rep, ci) == Join(FixWords(ws, pat, rep, ci), " ")
    decreases |ws|
  {
    if |ws| == 1 {
      ReplaceFinalWord(ws[0], [], pat, rep, ci);
      assert ws[0] + [] == ws[0];
    } else if |ws| > 1 {
      var rest := Join(ws[1..], " ");
      ReplaceFinalWords(ws[1..], pat, rep, ci);
      ReplaceFinalWord(ws[0], " " + rest, pat, rep, ci);
      assert (" " + rest)[1..] == rest;
      assert ws[0] + " " + rest == ws[0] + (" " + rest);
      assert FixWords(ws, pat, rep, ci)[1..] == FixWords(ws[1..], pat, rep, ci);
    }
  }

  /** The singular plural2singular gives one word. */
  function SingularWord(w: string): string
  {
    FixWord(FixWord(FixWord(w, "res", "r", false), "ões", "ão", false), "s", "", true)
  }

  lemma FixWordNoSpaces(w: string, pat: string, rep: string, ci: bool)
    requires NoSpaces(w) && NoSpaces(rep)
    ensures NoSpaces(FixWord(w, pat, rep, ci))
  {
    var r := FixWord(w, pat, rep, ci);
    if |pat| <= |w| && MatchHere(w[|w| - |pat|..], pat, ci) {
      forall i | 0 <= i < |r| ensures !IsPcreSpace(r[i]) {
        if i < |w| - |pat| { assert r[i] == w[i]; } else { assert r[i] == rep[i - (|w| - |pat|)]; }
      }
    }
  }

  /** The singular of each word, in order. */
  function Singulares(ws: seq<string>): (r: seq<string>)
    ensures |r| == |ws|
    decreases |ws|
  {
    if ws == [] then [] else [SingularWord(ws[0])] + Singulares(ws[1..])
  }

  lemma {:induction false} SingularesIndice(ws: seq<string>, i: int)
    requires 0 <= i < |ws|
    ensures Singulares(ws)[i] == SingularWord(ws[i])
    decreases |ws|
  {
    if i > 0 {
      SingularesIndice(ws[1..], i - 1);
    }
  }

  lemma Plural2SingularWords(ws: seq<string>)
    requires forall i :: 0 <= i < |ws| ==> NoSpaces(ws[i])
    ensures Plural2Singular(Join(ws, " ")) == Join(Singulares(ws), " ")
  {
    var a := FixWords(ws, "res", "r", false);
    var b := FixWords(a, "ões", "ão", false);
    PadroesSemEspacos();
    ReplaceFinalWords(ws, "res", "r", false);
    FixWordsNoSpaces(ws, "res", "r", false);
    ReplaceFinalWords(a, "ões", "ão", false);
    FixWordsNoSpaces(a, "ões", "ão", false);
    ReplaceFinalWords(b, "s", "", true);
    SingularWords(ws);
  }

  /** The patterns and replacements plural2singular uses hold no blank. */
  lemma PadroesSemEspacos()
    ensures NoSpaces("res") && NoSpaces("r") && NoSpaces("ões") && NoSpaces("ão") && NoSpaces("s") && NoSpaces("")
  {
    var ps := ["res", "r", "ões", "ão", "s"];
    forall k | 0 <= k < |ps| ensures NoSpaces(ps[k]) {
      var w := ps[k];
      forall i | 0 <= i < |w| ensures !IsPcreSpace(w[i]) {
        assert w[i] in {'r', 'e', 's', 'õ', 'ã', 'o'};
      }
    }
    assert ps[0] == "res" && ps[1] == "r" && ps[2] == "ões" && ps[3] == "ão" && ps[4] == "s";
  }

  lemma FixWordsNoSpaces(ws: seq<string>, pat: string, rep: string, ci: bool)
    requires NoSpaces(rep) && forall i :: 0 <= i < |ws| ==> NoSpaces(ws[i])
    ensures forall i :: 0 <= i < |ws| ==> NoSpaces(FixWords(ws, pat, rep, ci)[i])
  {
    forall i | 0 <= i < |ws| ensures NoSpaces(FixWords(ws, pat, rep, ci)[i]) {
      FixWordNoSpaces(ws[i], pat, rep, ci);
    }
  }

  lemma {:induction false} SingularWords(ws: seq<string>)
    ensures FixWords(FixWords(FixWords(ws, "res", "r", false), "ões", "ão", false), "s", "", true) == Singulares(ws)
    decreases |ws|
  {
    if ws != [] {
      var a := FixWords(ws, "res", "r", false);
      var b := FixWords(a, "ões", "ão", false);
      assert a[1..] == FixWords(ws[1..], "res", "r", false);
      assert b[1..] == FixWords(a[1..], "ões", "ão", false);
      SingularWords(ws[1..]);
    }
  }

  /** One word: "res" becomes "r", otherwise "ões" becomes "ão", otherwise a final s or S is dropped. */
  lemma SingularWordSpec(w: string)
    ensures EndsWith(w, "res") ==> SingularWord(w) == w[..|w| - 3] + "r"
    ensures !EndsWith(w, "res") && EndsWith(w, "ões") ==> SingularWord(w) == w[..|w| - 3] + "ão"
    ensures !EndsWith(w, "res") && !EndsWith(w, "ões") && |w| >= 1 && (w[|w| - 1] == 's' || w[|w| - 1] == 'S') ==>
      SingularWord(w) == w[..|w| - 1]
    ensures !EndsWith(w, "res") && !EndsWith(w, "ões") && (|w| == 0 || (w[|w| - 1] != 's' && w[|w| - 1] != 'S')) ==>
      SingularWord(w) == w
  {
    var a := FixWord(w, "res", "r", false);
    if EndsWith(w, "res") {
      assert MatchHere(w[|w| - 3..], "res", false);
      assert a[|a| - 1] == 'r';
      if 3 <= |a| {
        assert a[|a| - 3..][2] == 'r';
      }
      assert a[|a| - 1..][0] == 'r';
    } else {
      assert !(3 <= |w| && MatchHere(w[|w| - 3..], "res", false));
      assert a == w;
      var b := FixWord(a, "ões", "ão", false);
      if EndsWith(w, "ões") {
        assert MatchHere(w[|w| - 3..], "ões", false);
        assert b[|b| - 1] == 'o';
        assert b[|b| - 1..][0] == 'o';
      } else {
        assert !(3 <= |w| && MatchHere(w[|w| - 3..], "ões", false));
        assert b == w;
        if |w| >= 1 && (w[|w| - 1] == 's' || w[|w| - 1] == 'S') {
          assert MatchHere(w[|w| - 1..], "s", true);
        } else if |w| >= 1 {
          assert !MatchHere(w[|w| - 1..], "s", true);
        }
      }
    }
  }

  // ------------------------------------------------------------------ naoVazio

  /** naoVazio: the first argument that is not empty(), or null when there is none. */
  method NaoVazio(args: seq<Value>) returns (r: Option<Value>)
    ensures r.None? <==> forall i :: 0 <= i < |args| ==> Empty(args[i])
    ensures r.Some? ==>
      exists i :: 0 <= i < |args| && r.value == args[i] && !Empty(args[i]) && (forall j :: 0 <= j < i ==> Empty(args[j]))
  {
    var i := 0;
    while i < |args|
      invariant 0 <= i <= |args|
      invariant forall j :: 0 <= j < i ==> Empty(args[j])
    {
      if !Empty(args[i]) {
        return Some(args[i]);
      }
      i := i + 1;
    }
    return None;
  }

  // --------------------------------------------------------------- lista2Humano

  /** \w under the u flag, restricted to ASCII and the Latin-1 letters. */
  predicate IsWordCharU(c: char)
  {
    IsWordChar(c) || ('À' <= c <= 'ÿ' && c != '×' && c != '÷')
  }

  /** preg_replace("~{sep}\s*~", ', '): each separator and the blanks after it become ", ". */
  function NormalizeSeparators(s: string, sep: string): string
    requires |sep| > 0
    decreases |s|
  {
    if s == [] then []
    else if StartsWith(s, sep) then
      var n := RunLength(s[|sep|..], IsPcreSpace);
      ", " + NormalizeSeparators(s[|sep| + n..], sep)
    else [s[0]] + NormalizeSeparators(s[1..], sep)
  }

  predicate AllWordU(s: string) { forall i :: 0 <= i < |s| ==> IsWordCharU(s[i]) }

  /** (\w+)$ read from its start: one or more word characters, then the end or a final newline. */
  predicate PalavraFinal(t: string)
  {
    (|t| >= 1 && AllWordU(t)) || (|t| >= 2 && t[|t| - 1] == '\n' && AllWordU(t[..|t| - 1]))
  }

  /** preg_replace('~,\s(\w+)$~u', ' e $1'): a final ", word" becomes " e word". */
  function FinalAnd(s: string): string
    decreases |s|
  {
    if s == [] then []
    else if |s| >= 3 && s[0] == ',' && IsPcreSpace(s[1]) && PalavraFinal(s[2..]) then " e " + s[2..]
    else [s[0]] + FinalAnd(s[1..])
  }

  /** lista2Humano: normalise the separators, then join the last item with " e ". */
  function Lista2Humano(lista: string, separador: string): string
    requires |separador| > 0
  {
    FinalAnd(NormalizeSeparators(lista, separador))
  }

  predicate ItemWord(w: string) { |w| >= 1 && AllWordU(w) }

  lemma {:induction false} NormalizeWord(w: string, t: string, sep: string)
    requires |sep| > 0 && !IsWordCharU(sep[0]) && AllWordU(w)
    ensures NormalizeSeparators(w + t, sep) == w + NormalizeSeparators(t, sep)
    decreases |w|
  {
    if w == [] {
      assert w + t == t;
    } else {
      assert (w + t)[1..] == w[1..] + t;
      assert !StartsWith(w + t, sep) by { assert (w + t)[0] == w[0]; }
      NormalizeWord(w[1..], t, sep);
      assert [w[0]] + w[1..] == w;
    }
  }

  lemma {:induction false} NormalizeJoin(items: seq<string>, sep: string)
    requires |sep| > 0 && !IsWordCharU(sep[0]) && !IsPcreSpace(sep[0])
    requires forall i :: 0 <= i < |items| ==> ItemWord(items[i])
    ensures NormalizeSeparators(Join(items, sep), sep) == Join(items, ", ")
    decreases |items|
  {
    if |items| == 1 {
      NormalizeWord(items[0], [], sep);
      assert items[0] + [] == items[0];
    } else if |items| > 1 {
      var rest := Join(items[1..], sep);
      var r := Join(items[1..], ", ");
      NormalizeJoin(items[1..], sep);
      assert ItemWord(items[1]) && ItemWord(items[0]);
      assert rest != [] && rest[0] == items[1][0] by {
        if |items| > 2 { assert rest == items[1] + sep + Join(items[2..], sep); }
      }
      NormalizeItem(items[0], rest, sep, r);
    }
  }

  /** One item, the separator and the rest: the separator becomes ", ". */
  lemma NormalizeItem(w: string, rest: string, sep: string, r: string)
    requires |sep| > 0 && !IsWordCharU(sep[0]) && AllWordU(w)
    requires rest != [] && !IsPcreSpace(rest[0]) && NormalizeSeparators(rest, sep) == r
    ensures NormalizeSeparators(w + sep + rest, sep) == w + ", " + r
  {
    NormalizeSepPasso(rest, sep);
    NormalizeWord(w, sep + rest, sep);
    assert w + sep + rest == w + (sep + rest);
    assert w + (", " + r) == w + ", " + r;
  }

  /** A separator followed by no blank becomes ", ". */
  lemma NormalizeSepPasso(rest: string, sep: string)
    requires |sep| > 0 && rest != [] && !IsPcreSpace(rest[0])
    ensures NormalizeSeparators(sep + rest, sep) == ", " + NormalizeSeparators(rest, sep)
  {
    var t := sep + rest;
    assert StartsWith(t, sep);
    assert t[|sep|..] == rest;
    assert RunLength(rest, IsPcreSpace) == 0;
    assert t[|sep| + 0..] == rest;
  }

  lemma {:induction false} FinalAndWord(w: string, t: string)
    requires AllWordU(w)
    ensures FinalAnd(w + t) == w + FinalAnd(t)
    decreases |w|
  {
    if w == [] {
      assert w + t == t;
    } else {
      assert (w + t)[1..] == w[1..] + t;
      FinalAndWord(w[1..], t);
      assert [w[0]] + w[1..] == w;
    }
  }

  /** Before a list that still holds a comma, ", " is no final ", word". */
  lemma AssocFinal(a: string, j: string, last: string)
    ensures a + (", " + (j + " e " + last)) == a + ", " + j + " e " + last
  {
  }

  lemma FinalAndComma(rest: string)
    requires !PalavraFinal(rest)
    ensures FinalAnd(", " + rest) == ", " + FinalAnd(rest)
  {
    var t := ", " + rest;
    assert t[2..] == rest;
    assert t[1..] == " " + rest;
    assert (" " + rest)[1..] == rest;
  }

  lemma FinalAndLast(w: string)
    requires ItemWord(w)
    ensures FinalAnd(", " + w) == " e " + w
  {
    assert (", " + w)[2..] == w;
  }

  lemma {:induction false} FinalAndJoin(items: seq<string>)
    requires |items| >= 2 && forall i :: 0 <= i < |items| ==> ItemWord(items[i])
    ensures FinalAnd(Join(items, ", ")) == Join(items[..|items| - 1], ", ") + " e " + items[|items| - 1]
    decreases |items|
  {
    var rest := Join(items[1..], ", ");
    assert Join(items, ", ") == items[0] + (", " + rest);
    FinalAndWord(items[0], ", " + rest);
    if |items| == 2 {
      assert rest == items[1];
      FinalAndLast(items[1]);
    } else {
      assert rest == items[1] + ", " + Join(items[2..], ", ");
      assert rest[|items[1]|] == ',';
      assert rest[..|rest| - 1][|items[1]|] == ',';
      FinalAndComma(rest);
      var t := items[1..];
      FinalAndJoin(t);
      var init := items[..|items| - 1];
      var last := items[|items| - 1];
      var j := Join(init[1..], ", ");
      MeioDaLista(items, t, init);
      assert FinalAnd(rest) == j + " e " + last;
      assert FinalAnd(Join(items, ", ")) == items[0] + (", " + (j + " e " + last));
      assert Join(init, ", ") == items[0] + ", " + j;
      AssocFinal(items[0], j, last);
    }
  }

  /** `$` also matches before a final newline, so a last word followed by one still takes " e ". */
  lemma FinalAndNovaLinha()
    ensures FinalAnd("a, b\n") == "a e b\n"
  {
    assert PalavraFinal("b\n") by {
      assert "b\n"[..1] == "b";
    }
    assert ", b\n"[2..] == "b\n";
    assert FinalAnd(", b\n") == " e b\n";
    assert "a, b\n"[1..] == ", b\n";
    assert !PalavraFinal("a, b\n"[2..]);
  }

  lemma MeioDaLista(items: seq<string>, t: seq<string>, init: seq<string>)
    requires |items| >= 2 && t == items[1..] && init == items[..|items| - 1]
    ensures t[..|t| - 1] == init[1..] && t[|t| - 1] == items[|items| - 1]
  {
  }

  /** A separated list of words reads as "a, b e c". */
  lemma Lista2HumanoWords(items: seq<string>, sep: string)
    requires |sep| > 0 && !IsWordCharU(sep[0]) && !IsPcreSpace(sep[0])
    requires |items| >= 2 && forall i :: 0 <= i < |items| ==> ItemWord(items[i])
    ensures Lista2Humano(Join(items, sep), sep) == Join(items[..|items| - 1], ", ") + " e " + items[|items| - 1]
  {
    NormalizeJoin(items, sep);
    FinalAndJoin(items);
  }
}
