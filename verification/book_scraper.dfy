/**
  Parsing of one `article.product_pod` card of the catalogue site into a
  book dictionary (raspagem/book_scraper.py).
 */
module BookScraper {
  import opened Wrappers
  import opened Text
  import opened Modelos

  /**
    What the browser yields for a card. A field is `None` when the element
    lookup raises (the element is missing) or, for the price, when the
    pound-stripped text is not a float.
   */
  datatype Card = Card(
    titulo: Option<string>,
    preco: Option<real>,
    ratingClass: Option<string>,
    estoque: Option<string>,
    imagem: Option<string>)

  /** The rating words of the star-rating class, "One" at index 0. */
  const RatingWords: seq<string> := ["One", "Two", "Three", "Four", "Five"]

  /** The substring whose presence marks a book as available. */
  const EmEstoque: string := "In stock"

  /** The rating map lookup with default 0. */
  function RatingNumero(palavra: string): (n: int)
    ensures 0 <= n <= 5
    ensures n == 0 <==> palavra !in RatingWords
    ensures n > 0 ==> RatingWords[n - 1] == palavra
  {
    if palavra == "One" then 1
    else if palavra == "Two" then 2
    else if palavra == "Three" then 3
    else if palavra == "Four" then 4
    else if palavra == "Five" then 5
    else 0
  }

  /** The rating read from the class attribute: only its last token counts. */
  function RatingDaClasse(classe: string): int {
    RatingNumero(LastToken(classe))
  }

  /**
    `extrair_dados_livro`: all five lookups succeed and produce a record, or
    the card yields `None`; a partial record is never returned.
   */
  function ExtrairDadosLivro(card: Card, nomeCategoria: string): (r: Option<DadosLivro>)
    ensures r.Some? <==>
      card.titulo.Some? && card.preco.Some? && card.ratingClass.Some? &&
      card.estoque.Some? && card.imagem.Some?
    ensures r.Some? ==> r.value.categoria == nomeCategoria && 0 <= r.value.rating <= 5
  {
    match (card.titulo, card.preco, card.ratingClass, card.estoque, card.imagem)
    case (Some(titulo), Some(preco), Some(classe), Some(estoque), Some(imagem)) =>
      Some(DadosLivro(
        titulo := titulo,
        preco := preco,
        rating := RatingDaClasse(classe),
        disponibilidade := Contains(estoque, EmEstoque),
        imagem := imagem,
        categoria := nomeCategoria))
    case _ => None
  }

  /**
    A record copies the title, price and image of its card, and the book is
    available exactly when the stock text contains "In stock".
   */
  lemma ExtractedFieldsCopied(card: Card, nomeCategoria: string)
    requires ExtrairDadosLivro(card, nomeCategoria).Some?
    ensures
      var d := ExtrairDadosLivro(card, nomeCategoria).value;
      && d.titulo == card.titulo.value
      && d.preco == card.preco.value
      && d.imagem == card.imagem.value
      && d.rating == RatingDaClasse(card.ratingClass.value)
      && (d.disponibilidade <==> Contains(card.estoque.value, EmEstoque))
  {
  }

  /**
    The class text "star-rating W" for the i-th rating word W gives rating
    i + 1, whatever precedes the last space.
   */
  lemma RatingOfStarClass(prefixo: string, i: nat)
    requires i < |RatingWords|
    ensures RatingDaClasse(prefixo + " " + RatingWords[i]) == i + 1
  {
    assert ' ' !in RatingWords[i];
    LastTokenAfterSpace(prefixo, RatingWords[i]);
    assert RatingWords[i] in RatingWords;
  }

  /** Any last token other than the five rating words gives 0, not an error. */
  lemma UnknownRatingWordIsZero(prefixo: string, palavra: string)
    requires ' ' !in palavra
    requires palavra !in RatingWords
    ensures RatingDaClasse(prefixo + " " + palavra) == 0
  {
    LastTokenAfterSpace(prefixo, palavra);
  }

  /** A class attribute ending in a space has an empty last token: rating 0. */
  lemma TrailingSpaceIsZero(classe: string)
    requires |classe| > 0 && classe[|classe| - 1] == ' '
    ensures RatingDaClasse(classe) == 0
  {
    assert "" !in RatingWords;
  }
}
