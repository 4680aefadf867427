/** The price check made when the admin creates a listing
    (src/server.js:500-511), after the form has passed its schema: a sale
    needs a positive sale price and a rental a positive rent. Both prices have
    passed `nonnegative()` with default 0, so they are numbers. */
module AdminCreate {
  import opened Wrappers

  /** A 400 answer: the general error text and one field with its message. */
  datatype Rejection = Rejection(error: string, field: string, message: string)

  const Review := "Revise os campos obrigatorios."

  /** The price the category is judged by is present and positive. */
  predicate PriceRequirementMet(categoria: string, preco: real, valorAluguel: real) {
    && (categoria == "Venda" ==> preco > 0.0)
    && (categoria == "Aluguel" ==> valorAluguel > 0.0)
  }

  /** `!x || x <= 0` for a number that is not NaN. */
  predicate NotPositive(x: real) {
    x == 0.0 || x <= 0.0
  }

  /** The two checks in the order the handler makes them. */
  function CreatePriceCheck(categoria: string, preco: real, valorAluguel: real): Option<Rejection> {
    if categoria == "Venda" && NotPositive(preco) then
      Some(Rejection(Review, "preco", "Informe um preco de venda maior que zero."))
    else if categoria == "Aluguel" && NotPositive(valorAluguel) then
      Some(Rejection(Review, "valorAluguel", "Informe um valor de aluguel maior que zero."))
    else None
  }

  /** The listing is created exactly when its category's price is positive; a
      rejection names the price field of the category, and the other price is
      never looked at. */
  lemma PriceCheckMeetsRequirement(categoria: string, preco: real, valorAluguel: real)
    ensures CreatePriceCheck(categoria, preco, valorAluguel).None? <==> PriceRequirementMet(categoria, preco, valorAluguel)
    ensures CreatePriceCheck(categoria, preco, valorAluguel).Some? ==>
              CreatePriceCheck(categoria, preco, valorAluguel).value.error == Review
              && (CreatePriceCheck(categoria, preco, valorAluguel).value.field == "preco" <==> categoria == "Venda")
              && (CreatePriceCheck(categoria, preco, valorAluguel).value.field == "valorAluguel" <==> categoria == "Aluguel")
  {
  }

  /** A sale ignores the rent and a rental ignores the sale price. */
  lemma OtherPriceIgnored(categoria: string, preco: real, valorAluguel: real, other: real)
    ensures categoria == "Venda" ==>
              CreatePriceCheck(categoria, preco, valorAluguel) == CreatePriceCheck(categoria, preco, other)
    ensures categoria == "Aluguel" ==>
              CreatePriceCheck(categoria, preco, valorAluguel) == CreatePriceCheck(categoria, other, valorAluguel)
  {
  }
}
