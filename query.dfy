/** The database query built from the structured search filters
    (`buildQueryFromFilters`, src/server.js:378-391). Only truthy filters
    contribute: an absent or empty text filter and an absent, NaN or zero
    number filter leave their key out of the query. */
module Query {
  import opened Wrappers

  /** The filters as the handlers pass them. `None` is an absent value; for a
      number it is also a NaN, which is just as falsy. */
  datatype Filters = Filters(
    cidade: Option<string>,
    bairro: Option<string>,
    categoria: Option<string>,
    precoMin: Option<real>,
    precoMax: Option<real>,
    quartosMin: Option<real>,
    areaMin: Option<real>)

  /** JavaScript truthiness of an optional string. */
  predicate TextGiven(s: Option<string>) {
    s.Some? && s.value != ""
  }

  /** JavaScript truthiness of an optional number. */
  predicate NumberGiven(n: Option<real>) {
    n.Some? && n.value != 0.0
  }

  /** The `preco` sub-document: `$gte` and `$lte`, each present or not. */
  datatype Range = Range(gte: Option<real>, lte: Option<real>)

  /** The query object: a key is present exactly when its field is `Some`.
      `quartos` and `areaM2` hold the operand of their `$gte`. */
  datatype MongoQuery = MongoQuery(
    cidade: Option<string>,
    bairro: Option<string>,
    categoria: Option<string>,
    preco: Option<Range>,
    quartos: Option<real>,
    areaM2: Option<real>)

  /** The query of the filters, key by key. */
  function QueryOf(f: Filters): MongoQuery {
    MongoQuery(
      if TextGiven(f.cidade) then f.cidade else None,
      if TextGiven(f.bairro) then f.bairro else None,
      if TextGiven(f.categoria) then f.categoria else None,
      if NumberGiven(f.precoMin) || NumberGiven(f.precoMax) then
        Some(Range(if NumberGiven(f.precoMin) then f.precoMin else None,
                   if NumberGiven(f.precoMax) then f.precoMax else None))
      else None,
      if NumberGiven(f.quartosMin) then f.quartosMin else None,
      if NumberGiven(f.areaMin) then f.areaMin else None)
  }

  /** `buildQueryFromFilters`: starts from the empty object and adds one key
      per truthy filter. */
  method BuildQueryFromFilters(filters: Filters) returns (query: MongoQuery)
    ensures query == QueryOf(filters)
  {
    query := MongoQuery(None, None, None, None, None, None);
    if TextGiven(filters.cidade) {
      query := query.(cidade := filters.cidade);
    }
    if TextGiven(filters.bairro) {
      query := query.(bairro := filters.bairro);
    }
    if TextGiven(filters.categoria) {
      query := query.(categoria := filters.categoria);
    }
    if NumberGiven(filters.precoMin) || NumberGiven(filters.precoMax) {
      var preco := Range(None, None);
      if NumberGiven(filters.precoMin) {
        preco := preco.(gte := filters.precoMin);
      }
      if NumberGiven(filters.precoMax) {
        preco := preco.(lte := filters.precoMax);
      }
      query := query.(preco := Some(preco));
    }
    if NumberGiven(filters.quartosMin) {
      query := query.(quartos := filters.quartosMin);
    }
    if NumberGiven(filters.areaMin) {
      query := query.(areaM2 := filters.areaMin);
    }
  }

  /** A stored listing as far as the query looks at it. */
  datatype Document = Document(
    cidade: string,
    bairro: string,
    categoria: string,
    preco: real,
    quartos: real,
    areaM2: real)

  /** The documents a query selects: equality on the text keys, the bounds of
      `preco` inclusively, and `$gte` on the room count and the area. */
  predicate Selects(q: MongoQuery, d: Document) {
    && (q.cidade.Some? ==> d.cidade == q.cidade.value)
    && (q.bairro.Some? ==> d.bairro == q.bairro.value)
    && (q.categoria.Some? ==> d.categoria == q.categoria.value)
    && (q.preco.Some? ==>
          (q.preco.value.gte.Some? ==> d.preco >= q.preco.value.gte.value)
          && (q.preco.value.lte.Some? ==> d.preco <= q.preco.value.lte.value))
    && (q.quartos.Some? ==> d.quartos >= q.quartos.value)
    && (q.areaM2.Some? ==> d.areaM2 >= q.areaM2.value)
  }

  /** What a search with these filters asks for: every filter that was given
      holds of the document. */
  predicate MeetsFilters(f: Filters, d: Document) {
    && (TextGiven(f.cidade) ==> d.cidade == f.cidade.value)
    && (TextGiven(f.bairro) ==> d.bairro == f.bairro.value)
    && (TextGiven(f.categoria) ==> d.categoria == f.categoria.value)
    && (NumberGiven(f.precoMin) ==> d.preco >= f.precoMin.value)
    && (NumberGiven(f.precoMax) ==> d.preco <= f.precoMax.value)
    && (NumberGiven(f.quartosMin) ==> d.quartos >= f.quartosMin.value)
    && (NumberGiven(f.areaMin) ==> d.areaM2 >= f.areaMin.value)
  }

  /** The query selects exactly the documents that meet the given filters. */
  lemma QuerySelectsFiltered(f: Filters, d: Document)
    ensures Selects(QueryOf(f), d) <==> MeetsFilters(f, d)
  {
  }

  /** Each key is present exactly when its filter is truthy, and then holds
      the filter's value. In particular `preco` is never the empty object,
      which would select no listing at all. */
  lemma FalsyFiltersOmitted(f: Filters)
    ensures QueryOf(f).cidade.Some? <==> TextGiven(f.cidade)
    ensures QueryOf(f).cidade.Some? ==> QueryOf(f).cidade == f.cidade
    ensures QueryOf(f).bairro.Some? <==> TextGiven(f.bairro)
    ensures QueryOf(f).bairro.Some? ==> QueryOf(f).bairro == f.bairro
    ensures QueryOf(f).categoria.Some? <==> TextGiven(f.categoria)
    ensures QueryOf(f).categoria.Some? ==> QueryOf(f).categoria == f.categoria
    ensures QueryOf(f).preco.Some? <==> NumberGiven(f.precoMin) || NumberGiven(f.precoMax)
    ensures QueryOf(f).preco.Some? ==> QueryOf(f).preco.value.gte.Some? || QueryOf(f).preco.value.lte.Some?
    ensures QueryOf(f).preco.Some? ==> (QueryOf(f).preco.value.gte.Some? <==> NumberGiven(f.precoMin))
    ensures QueryOf(f).preco.Some? ==> (QueryOf(f).preco.value.lte.Some? <==> NumberGiven(f.precoMax))
    ensures QueryOf(f).preco.Some? && QueryOf(f).preco.value.gte.Some? ==> QueryOf(f).preco.value.gte == f.precoMin
    ensures QueryOf(f).preco.Some? && QueryOf(f).preco.value.lte.Some? ==> QueryOf(f).preco.value.lte == f.precoMax
    ensures QueryOf(f).quartos.Some? <==> NumberGiven(f.quartosMin)
    ensures QueryOf(f).quartos.Some? ==> QueryOf(f).quartos == f.quartosMin
    ensures QueryOf(f).areaM2.Some? <==> NumberGiven(f.areaMin)
    ensures QueryOf(f).areaM2.Some? ==> QueryOf(f).areaM2 == f.areaMin
  {
  }

  /** The defaulted `filters = {}` gives the empty query, which selects every
      document. */
  lemma NoFiltersSelectAll(d: Document)
    ensures QueryOf(Filters(None, None, None, None, None, None, None)) == MongoQuery(None, None, None, None, None, None)
    ensures Selects(QueryOf(Filters(None, None, None, None, None, None, None)), d)
  {
  }

  /** A sale search capped at one million asks for the category and an upper
      price bound only. */
  lemma SaleUpToOneMillion()
    ensures QueryOf(Filters(None, None, Some("Venda"), None, Some(1000000.0), None, None))
            == MongoQuery(None, None, Some("Venda"), Some(Range(None, Some(1000000.0))), None, None)
  {
  }

  /** A zero bound is falsy and is dropped, even though it is a number. */
  lemma ZeroBoundDropped()
    ensures QueryOf(Filters(None, None, None, Some(0.0), None, Some(0.0), None)) == MongoQuery(None, None, None, None, None, None)
  {
  }
}
