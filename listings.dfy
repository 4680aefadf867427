/** A property listing as the chat filter sees it (the `Imovel` schema of
    src/server.js:67-89): its texts, its two prices, its category and its
    location. A missing text or location part is the empty string, which
    every use of these fields treats as absent. */
module Listings {
  import opened Strings
  import opened TextNormal
  import opened PriceRules

  datatype Listing = Listing(
    titulo: string,
    descricao: string,
    preco: real,
    valorAluguel: real,
    categoria: string,
    bairro: string,
    cidade: string)

  /** The price a listing is judged by: the rent of a rental that states one,
      otherwise the sale price. */
  function ActivePrice(i: Listing): (valor: real)
    ensures i.categoria != "Aluguel" ==> valor == i.preco
    ensures i.categoria == "Aluguel" && i.valorAluguel != 0.0 ==> valor == i.valorAluguel
    ensures i.valorAluguel == 0.0 ==> valor == i.preco
  {
    if i.categoria == "Aluguel" && i.valorAluguel != 0.0 then i.valorAluguel else i.preco
  }

  /** The normalised title and description, joined by a space. */
  function Haystack(i: Listing): string {
    Normalize(i.titulo + " " + i.descricao)
  }

  /** A price lies within the bounds that are present, inclusively. */
  predicate InBounds(valor: real, f: PriceFilter) {
    (f.min.None? || valor >= f.min.value) && (f.max.None? || valor <= f.max.value)
  }
}
