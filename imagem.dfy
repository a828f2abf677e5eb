// DLX\Classes\Imagem (dlx/classes/imagem.classe.php): an image file, its
// dimensions and type, the quality used when saving it, and the guards and
// dimension arithmetic of its editing operations. The GD drawing itself is not
// modelled: an edit records the dimensions (or angle) of the image it makes.

module Imagem {
  import opened Wrappers
  import opened Text
  import opened Values
  import opened Filtros

  /** The working image an edit leaves behind. */
  datatype Edicao =
    | Redimensionada(largura: real, altura: real)
    | Recortada(largura: real, altura: real, x: int, y: int)
    | Rotacionada(graus: Value)

  // ------------------------------------------------------------ is_numeric

  /** Blanks is_numeric allows before a number. */
  const BRANCOS_NUMERO: set<char> := {' ', '\t', '\n', '\r', 11 as char, 12 as char}

  /** Digits with an optional fraction, or a fraction alone: "12", "12.", "12.5", ".5". */
  predicate Decimal(t: string)
  {
    var p := Split(t, '.');
    (|p| == 1 && |p[0]| >= 1 && AllDigits(p[0])) ||
    (|p| == 2 && AllDigits(p[0]) && AllDigits(p[1]) && |p[0]| + |p[1]| >= 1)
  }

  /** A text that starts with a sign. */
  predicate ComSinal(t: string)
  {
    t != [] && (t[0] == '+' || t[0] == '-')
  }

  /** The exponent after the e: an optional sign and digits. */
  predicate Expoente(t: string)
  {
    var d := if ComSinal(t) then t[1..] else t;
    |d| >= 1 && AllDigits(d)
  }

  /** A decimal with an optional sign and an optional exponent (e or E). */
  predicate NumeroTexto(t: string)
  {
    var m := if ComSinal(t) then t[1..] else t;
    var p := Split(Lower(m), 'e');
    (|p| == 1 && Decimal(p[0])) || (|p| == 2 && Decimal(p[0]) && Expoente(p[1]))
  }

  /** is_numeric: integers, and strings holding a number after leading blanks. */
  predicate Numerico(v: Value)
  {
    match v
    case Int(_) => true
    case Str(s) => NumeroTexto(TrimLeft(s, BRANCOS_NUMERO))
    case _ => false
  }

  lemma DigitosSemPonto(d: string)
    requires AllDigits(d)
    ensures '.' !in d && 'e' !in d && Lower(d) == d
  {
    assert forall i :: 0 <= i < |d| ==> d[i] != '.' && d[i] != 'e';
    LowerOfLower(d);
  }

  lemma NatNumero(n: nat)
    ensures NumeroTexto(NatToString(n))
  {
    var d := NatToString(n);
    DigitosSemPonto(d);
    SplitNoSeparator(d, 'e');
    SplitNoSeparator(d, '.');
  }

  /** The decimal text of any integer is numeric. */
  lemma IntTextNumerico(n: int)
    ensures Numerico(Str(IntText(n)))
  {
    var t := IntText(n);
    var d := NatToString(if n >= 0 then n else -n);
    NatNumero(if n >= 0 then n else -n);
    assert t[0] !in BRANCOS_NUMERO;
    assert TrimLeft(t, BRANCOS_NUMERO) == t;
    if n < 0 {
      assert t[1..] == d;
    }
  }

  // ------------------------------------------------------------ dimensions

  const MSG_REDIMENSIONAR := "Para redimensionar uma imagem é necessário informar a largura e / ou a altura desejada."
  const MSG_RECORTAR := "Para recortar uma imagem é necessário informar a largura e / ou a altura desejada."

  /**
   * The failure of a size derived from an image whose other side is 0 (an image with no file
   * loaded): PHP's own division-by-zero error.
   */
  const DIVISAO_POR_ZERO: int := ERRO_PHP

  /**
   * The final dimensions of redimensionar and recortar: both empty (0) throws 1403 with the
   * operation's message; a missing width is the height scaled by the original's width/height
   * ratio, and a missing height the width scaled by its inverse; a ratio whose divisor is the
   * original's zero side fails with a division by zero.
   */
  function NovasDimensoes(largura: real, altura: real, origLargura: int, origAltura: int, mensagem: string): (r: Outcome<(real, real)>)
    ensures r.Throw? && r.code == FORBIDDEN <==> largura == 0.0 && altura == 0.0
    ensures r.Throw? && r.code == FORBIDDEN ==> r.message == mensagem
    ensures r.Throw? && r.code == DIVISAO_POR_ZERO <==>
      (largura == 0.0 && altura != 0.0 && origAltura == 0) || (largura != 0.0 && altura == 0.0 && origLargura == 0)
    ensures r.Throw? ==> r.code in {FORBIDDEN, DIVISAO_POR_ZERO}
    ensures r.Ok? && largura != 0.0 ==> r.value.0 == largura
    ensures r.Ok? && altura != 0.0 ==> r.value.1 == altura
    ensures r.Ok? && (largura == 0.0 || altura == 0.0) ==>
      r.value.0 * origAltura as real == r.value.1 * origLargura as real
  {
    if largura == 0.0 && altura == 0.0 then Throw(FORBIDDEN, mensagem)
    else if largura == 0.0 && origAltura == 0 then Throw(DIVISAO_POR_ZERO, "Division by zero")
    else
      var l := if largura == 0.0 then (altura * origLargura as real) / origAltura as real else largura;
      if altura == 0.0 && origLargura == 0 then Throw(DIVISAO_POR_ZERO, "Division by zero")
      else
        var a := if altura == 0.0 then (origAltura as real * l) / origLargura as real else altura;
        Ok((l, a))
  }

  class Imagem {
    var arquivo: Option<string>
    var largura: int
    var altura: int
    var tipo: int
    var qldeJpeg: int
    var qldePng: int
    var imagem: Option<Edicao>

    /**
     * A new image: no file, no image, JPEG quality 90 and PNG quality 7. PHP
     * leaves the sizes and the type null; they are 0 here, which empty() and
     * so NovasDimensoes treat the same way.
     */
    constructor ()
      ensures arquivo.None? && imagem.None?
      ensures largura == 0 && altura == 0 && tipo == 0
      ensures qldeJpeg == 90 && qldePng == 7
    {
      arquivo, imagem := None, None;
      largura, altura, tipo := 0, 0, 0;
      qldeJpeg, qldePng := 90, 7;
    }

    /**
     * setArquivo: an empty name or a file that does not exist throws 1404;
     * otherwise the sanitized name is kept, with the width, height and type
     * getimagesize reads (the existence test and that reading are parameters).
     */
    method SetArquivo(nome: string, existe: bool, tamanho: (int, int, int)) returns (r: Outcome<()>)
      modifies this
      ensures r.Throw? <==> nome == "" || nome == "0" || !existe
      ensures r.Throw? ==> r.code == NOT_FOUND && unchanged(this)
      ensures r.Ok? ==> arquivo == Some(Sanitizar(nome)) && largura == tamanho.0 && altura == tamanho.1 && tipo == tamanho.2
      ensures r.Ok? ==> qldeJpeg == old(qldeJpeg) && qldePng == old(qldePng) && imagem == old(imagem)
    {
      if nome == "" || nome == "0" || !existe {
        return Throw(NOT_FOUND, "O arquivo da imagem não foi encontrado!");
      }
      arquivo := Some(Sanitizar(nome));
      largura, altura, tipo := tamanho.0, tamanho.1, tamanho.2;
      r := Ok(());
    }

    /** setQldeJpeg: an integer in 0..100, otherwise 90. */
    method SetQldeJpeg(q: Value)
      modifies this
      ensures qldeJpeg == ValidarIntFaixa(q, 0, 100, 90) && 0 <= qldeJpeg <= 100
      ensures arquivo == old(arquivo) && largura == old(largura) && altura == old(altura) && tipo == old(tipo)
      ensures qldePng == old(qldePng) && imagem == old(imagem)
    {
      qldeJpeg := ValidarIntFaixa(q, 0, 100, 90);
    }

    /** setQldePng: an integer in 0..9, otherwise 7. */
    method SetQldePng(q: Value)
      modifies this
      ensures qldePng == ValidarIntFaixa(q, 0, 9, 7) && 0 <= qldePng <= 9
      ensures arquivo == old(arquivo) && largura == old(largura) && altura == old(altura) && tipo == old(tipo)
      ensures qldeJpeg == old(qldeJpeg) && imagem == old(imagem)
    {
      qldePng := ValidarIntFaixa(q, 0, 9, 7);
    }

    /**
     * redimensionar: the new image has the final dimensions; both sizes empty throws 1403, a
     * ratio over a zero side fails, and a failure changes nothing.
     */
    method Redimensionar(l: real, a: real) returns (r: Outcome<(real, real)>)
      modifies this
      ensures r == NovasDimensoes(l, a, old(largura), old(altura), MSG_REDIMENSIONAR)
      ensures r.Throw? ==> unchanged(this)
      ensures r.Ok? ==> imagem == Some(Redimensionada(r.value.0, r.value.1))
      ensures arquivo == old(arquivo) && largura == old(largura) && altura == old(altura) && tipo == old(tipo)
      ensures qldeJpeg == old(qldeJpeg) && qldePng == old(qldePng)
    {
      r := NovasDimensoes(l, a, largura, altura, MSG_REDIMENSIONAR);
      if r.Ok? {
        imagem := Some(Redimensionada(r.value.0, r.value.1));
      }
    }

    /** recortar: as redimensionar, with its own message, and the crop starts at (x, y). */
    method Recortar(l: real, a: real, x: int, y: int) returns (r: Outcome<(real, real)>)
      modifies this
      ensures r == NovasDimensoes(l, a, old(largura), old(altura), MSG_RECORTAR)
      ensures r.Throw? ==> unchanged(this)
      ensures r.Ok? ==> imagem == Some(Recortada(r.value.0, r.value.1, x, y))
      ensures arquivo == old(arquivo) && largura == old(largura) && altura == old(altura) && tipo == old(tipo)
      ensures qldeJpeg == old(qldeJpeg) && qldePng == old(qldePng)
    {
      r := NovasDimensoes(l, a, largura, altura, MSG_RECORTAR);
      if r.Ok? {
        imagem := Some(Recortada(r.value.0, r.value.1, x, y));
      }
    }

    /** rotacionar: an empty or non-numeric angle throws 1403 and changes nothing. */
    method Rotacionar(graus: Value) returns (r: Outcome<()>)
      modifies this
      ensures r.Throw? <==> Empty(graus) || !Numerico(graus)
      ensures r.Throw? ==> r.code == FORBIDDEN && unchanged(this)
      ensures r.Ok? ==> imagem == Some(Rotacionada(graus))
      ensures arquivo == old(arquivo) && largura == old(largura) && altura == old(altura) && tipo == old(tipo)
      ensures qldeJpeg == old(qldeJpeg) && qldePng == old(qldePng)
    {
      if Empty(graus) || !Numerico(graus) {
        return Throw(FORBIDDEN, "Por favor, informe a rotação em graus desejada para essa imagem.");
      }
      imagem := Some(Rotacionada(graus));
      r := Ok(());
    }

    predicate IsHorizontal()
      reads this
    {
      altura < largura
    }

    predicate IsVertical()
      reads this
    {
      altura > largura
    }

    predicate IsQuadrada()
      reads this
    {
      altura == largura
    }

    /** obterOrientacao: 'v', 'h' or 'q', and exactly one of the three predicates holds. */
    function ObterOrientacao(): (r: char)
      reads this
      ensures r == 'v' <==> IsVertical()
      ensures r == 'h' <==> IsHorizontal()
      ensures r == 'q' <==> IsQuadrada()
      ensures r in {'v', 'h', 'q'}
      ensures IsHorizontal() || IsVertical() || IsQuadrada()
      ensures !(IsHorizontal() && IsVertical()) && !(IsHorizontal() && IsQuadrada()) && !(IsVertical() && IsQuadrada())
    {
      if IsVertical() then 'v' else if IsHorizontal() then 'h' else 'q'
    }
  }

  /** A non-zero angle given as an integer or as its decimal text passes rotacionar's guard. */
  lemma GrausInteiros(n: int)
    requires n != 0
    ensures !Empty(Int(n)) && Numerico(Int(n))
    ensures !Empty(Str(IntText(n))) && Numerico(Str(IntText(n)))
  {
    IntTextNumerico(n);
    if n > 0 {
      NatToStringPrimeiro(n);
      assert IntText(n) != "0";
    } else {
      assert IntText(n)[0] == '-';
    }
  }
}
