// obterOrientacaoIMG (web/js/funcoes/obter-orientecao-img.js): the orientation
// letter of an image from its natural width and height, on the client side.

module ObterOrientacaoImg {
  import Imagem

  /** 'h' when the image is wider than tall, 'v' when taller than wide, 'q' when square. */
  function ObterOrientacaoImg(w: int, h: int): (r: char)
    ensures r == 'h' <==> h < w
    ensures r == 'v' <==> h > w
    ensures r == 'q' <==> h == w
  {
    if h < w then 'h' else if h > w then 'v' else 'q'
  }

  /** The client and the server (Imagem.obterOrientacao) classify an image the same way. */
  lemma ConcordaComServidor(img: Imagem.Imagem)
    ensures ObterOrientacaoImg(img.largura, img.altura) == img.ObterOrientacao()
  {
    var r := img.ObterOrientacao();
    assert r == 'v' || r == 'h' || r == 'q';
  }
}
