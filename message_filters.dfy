/** `applyMessageFilters` (src/server.js:210-257): narrows a list of listings
    by what a chat message asks for. It keeps the listings of the detected
    category, then (only when asked to be strict) those whose title and
    description mention the detected kind, then those whose active price lies
    within the detected bounds, and finally, for the neighbourhood and then the
    city, those located at the first known name that the message mentions. */
module MessageFilters {
  import opened Wrappers
  import opened Strings
  import opened TextNormal
  import opened Seqs
  import opened PriceRules
  import opened Intent
  import opened Listings

  /** The constraints a message imposes; an absent one constrains nothing. */
  datatype Criteria = Criteria(
    categoria: Option<string>,
    tipo: Option<string>,
    price: Option<PriceFilter>,
    bairro: Option<string>,
    cidade: Option<string>)

  /** A listing meets every constraint that is present. */
  predicate Matches(c: Criteria, i: Listing) {
    (c.categoria.None? || i.categoria == c.categoria.value)
    && (c.tipo.None? || Contains(Haystack(i), c.tipo.value))
    && (c.price.None? || InBounds(ActivePrice(i), c.price.value))
    && (c.bairro.None? || i.bairro == c.bairro.value)
    && (c.cidade.None? || i.cidade == c.cidade.value)
  }

  function Bairros(imoveis: seq<Listing>): (names: seq<string>)
    ensures |names| == |imoveis| && forall k :: 0 <= k < |imoveis| ==> names[k] == imoveis[k].bairro
  {
    seq(|imoveis|, k requires 0 <= k < |imoveis| => imoveis[k].bairro)
  }

  function Cidades(imoveis: seq<Listing>): (names: seq<string>)
    ensures |names| == |imoveis| && forall k :: 0 <= k < |imoveis| ==> names[k] == imoveis[k].cidade
  {
    seq(|imoveis|, k requires 0 <= k < |imoveis| => imoveis[k].cidade)
  }

  /** The message mentions a name when the name's normalised form occurs in it. */
  function Mentioned(text: string): string -> bool {
    n => Contains(text, Normalize(n))
  }

  /** The first candidate name the normalised message mentions. */
  function LocationMatch(names: seq<string>, text: string): Option<string> {
    Find(DistinctNames(names), Mentioned(text))
  }

  /** Everything `applyMessageFilters` derives from the message and the list. */
  function CriteriaOf(m: Matchers, imoveis: seq<Listing>, message: string, strictTipo: bool): Criteria {
    var text := Normalize(message);
    Criteria(
      DetectCategory(message),
      if strictTipo then DetectTipoImovel(message) else None,
      ParsePriceFilter(m, message),
      LocationMatch(Bairros(imoveis), text),
      LocationMatch(Cidades(imoveis), text))
  }

  /** The predicate of each filter stage. */
  function InCategory(categoria: string): Listing -> bool {
    (i: Listing) => i.categoria == categoria
  }

  function MentionsTipo(tipo: string): Listing -> bool {
    i => Contains(Haystack(i), tipo)
  }

  function PriceWithin(f: PriceFilter): Listing -> bool {
    i => InBounds(ActivePrice(i), f)
  }

  function AtBairro(bairro: string): Listing -> bool {
    (i: Listing) => i.bairro == bairro
  }

  function AtCidade(cidade: string): Listing -> bool {
    (i: Listing) => i.cidade == cidade
  }

  /** `if (o) result = result.filter(p(o))`. */
  function NarrowIf<T>(s: seq<Listing>, o: Option<T>, p: T -> Listing -> bool): seq<Listing> {
    if o.Some? then Filter(s, p(o.value)) else s
  }

  /** The filters in the order `applyMessageFilters` applies them. */
  function Staged(c: Criteria, imoveis: seq<Listing>): seq<Listing> {
    NarrowIf(NarrowIf(NarrowIf(NarrowIf(NarrowIf(imoveis,
      c.categoria, InCategory), c.tipo, MentionsTipo), c.price, PriceWithin), c.bairro, AtBairro), c.cidade, AtCidade)
  }

  /** What `applyMessageFilters` returns. */
  function MessageFilters(m: Matchers, imoveis: seq<Listing>, message: string, strictTipo: bool): seq<Listing> {
    Staged(CriteriaOf(m, imoveis, message, strictTipo), imoveis)
  }

  /** `applyMessageFilters(imoveis, message, strictTipo)`. */
  method ApplyMessageFilters(m: Matchers, imoveis: seq<Listing>, message: string, strictTipo: bool)
    returns (result: seq<Listing>)
    ensures result == MessageFilters(m, imoveis, message, strictTipo)
  {
    var text := Normalize(message);
    var categoria := DetectCategory(message);
    var tipo := DetectTipoImovel(message);
    var priceFilter := ParsePriceFilter(m, message);
    ghost var c := CriteriaOf(m, imoveis, message, strictTipo);

    result := NarrowByDetections(imoveis, categoria, tipo, strictTipo, priceFilter);
    ghost var r3 := NarrowIf(NarrowIf(NarrowIf(imoveis, c.categoria, InCategory), c.tipo, MentionsTipo), c.price, PriceWithin);
    assert result == r3 by {
      assert c.categoria == categoria && c.price == priceFilter;
      assert c.tipo == if strictTipo then tipo else None;
    }
    var atBairro := NarrowToFirstMention(result, DistinctNames(Bairros(imoveis)), text, AtBairro);
    assert atBairro == NarrowIf(r3, c.bairro, AtBairro) by {
      assert c.bairro == Find(DistinctNames(Bairros(imoveis)), Mentioned(text));
    }
    result := NarrowToFirstMention(atBairro, DistinctNames(Cidades(imoveis)), text, AtCidade);
    assert result == NarrowIf(atBairro, c.cidade, AtCidade) by {
      assert c.cidade == Find(DistinctNames(Cidades(imoveis)), Mentioned(text));
    }
  }

  /** The category, kind and price stages of `applyMessageFilters`. */
  method NarrowByDetections(imoveis: seq<Listing>, categoria: Option<string>, tipo: Option<string>,
                            strictTipo: bool, priceFilter: Option<PriceFilter>)
    returns (result: seq<Listing>)
    ensures result == NarrowIf(NarrowIf(NarrowIf(imoveis, categoria, InCategory),
                         if strictTipo then tipo else None, MentionsTipo), priceFilter, PriceWithin)
  {
    result := imoveis;
    if categoria.Some? {
      result := Filter(result, InCategory(categoria.value));
    }
    if tipo.Some? && strictTipo {
      result := Filter(result, MentionsTipo(tipo.value));
    }
    if priceFilter.Some? {
      result := Filter(result, PriceWithin(priceFilter.value));
    }
  }

  /** The location loops: the first name the text mentions narrows `result` to
      the listings at it, and the loop stops there. */
  method NarrowToFirstMention(result: seq<Listing>, names: seq<string>, text: string, at: string -> Listing -> bool)
    returns (r: seq<Listing>)
    ensures Find(names, Mentioned(text)).None? ==> r == result
    ensures Find(names, Mentioned(text)).Some? ==> r == Filter(result, at(Find(names, Mentioned(text)).value))
  {
    r := result;
    var k := 0;
    while k < |names|
      invariant 0 <= k <= |names|
      invariant forall j :: 0 <= j < k ==> !Contains(text, Normalize(names[j]))
      invariant r == result
    {
      if Contains(text, Normalize(names[k])) {
        FindAt(names, Mentioned(text), k);
        r := Filter(r, at(names[k]));
        break;
      }
      k := k + 1;
    }
  }

  /** One stage of `Staged` adds one constraint to the conjunction. */
  lemma AddConstraint(s: seq<Listing>, c: Criteria, q: Listing -> bool, c': Criteria)
    requires forall i :: Matches(c', i) == (Matches(c, i) && q(i))
    ensures Filter(Filter(s, i => Matches(c, i)), q) == Filter(s, i => Matches(c', i))
  {
    FilterFilter(s, i => Matches(c, i), q, i => Matches(c', i));
  }

  /** The staged filters keep exactly the listings that meet every constraint. */
  lemma StagedIsOneFilter(c: Criteria, imoveis: seq<Listing>)
    ensures Staged(c, imoveis) == Filter(imoveis, i => Matches(c, i))
  {
    var c0 := Criteria(None, None, None, None, None);
    var c1 := c0.(categoria := c.categoria);
    var c2 := c1.(tipo := c.tipo);
    var c3 := c2.(price := c.price);
    var c4 := c3.(bairro := c.bairro);
    assert c4.(cidade := c.cidade) == c;
    FilterAll(imoveis, i => Matches(c0, i));
    var r1 := NarrowIf(imoveis, c.categoria, InCategory);
    if c.categoria.Some? {
      AddConstraint(imoveis, c0, InCategory(c.categoria.value), c1);
    } else {
      FilterCongruent(imoveis, i => Matches(c0, i), i => Matches(c1, i));
    }
    assert r1 == Filter(imoveis, i => Matches(c1, i));
    var r2 := NarrowIf(r1, c.tipo, MentionsTipo);
    if c.tipo.Some? {
      AddConstraint(imoveis, c1, MentionsTipo(c.tipo.value), c2);
    } else {
      FilterCongruent(imoveis, i => Matches(c1, i), i => Matches(c2, i));
    }
    assert r2 == Filter(imoveis, i => Matches(c2, i));
    var r3 := NarrowIf(r2, c.price, PriceWithin);
    if c.price.Some? {
      AddConstraint(imoveis, c2, PriceWithin(c.price.value), c3);
    } else {
      FilterCongruent(imoveis, i => Matches(c2, i), i => Matches(c3, i));
    }
    assert r3 == Filter(imoveis, i => Matches(c3, i));
    var r4 := NarrowIf(r3, c.bairro, AtBairro);
    if c.bairro.Some? {
      AddConstraint(imoveis, c3, AtBairro(c.bairro.value), c4);
    } else {
      FilterCongruent(imoveis, i => Matches(c3, i), i => Matches(c4, i));
    }
    assert r4 == Filter(imoveis, i => Matches(c4, i));
    if c.cidade.Some? {
      AddConstraint(imoveis, c4, AtCidade(c.cidade.value), c);
    } else {
      FilterCongruent(imoveis, i => Matches(c4, i), i => Matches(c, i));
    }
  }

  /** The location step picks the first non-empty name, in list order, whose
      normalised form the message contains: de-duplicating the names changes
      nothing. */
  lemma LocationMatchIsFirstMention(names: seq<string>, text: string)
    ensures LocationMatch(names, text) == Find(names, n => n != "" && Contains(text, Normalize(n)))
  {
    var nonEmpty := Filter(names, NonEmpty);
    FindDistinctFrom(nonEmpty, {}, Mentioned(text));
    FindFilter(names, NonEmpty, Mentioned(text), n => n != "" && Contains(text, Normalize(n)));
  }

  /** The result keeps the order of the input and drops some of its listings. */
  lemma ResultIsSubsequence(m: Matchers, imoveis: seq<Listing>, message: string, strictTipo: bool)
    ensures IsSubsequence(MessageFilters(m, imoveis, message, strictTipo), imoveis)
  {
    var c := CriteriaOf(m, imoveis, message, strictTipo);
    StagedIsOneFilter(c, imoveis);
    FilterIsSubsequence(imoveis, i => Matches(c, i));
  }

  /** The staged filters keep the listings of the list that meet the criteria,
      and every such listing. */
  lemma StagedMembers(c: Criteria, imoveis: seq<Listing>)
    ensures forall k :: 0 <= k < |Staged(c, imoveis)| ==>
              Staged(c, imoveis)[k] in imoveis && Matches(c, Staged(c, imoveis)[k])
    ensures forall k :: 0 <= k < |imoveis| && Matches(c, imoveis[k]) ==> imoveis[k] in Staged(c, imoveis)
  {
    StagedIsOneFilter(c, imoveis);
    var f := Filter(imoveis, i => Matches(c, i));
    FilterMembers(imoveis, i => Matches(c, i));
    forall k | 0 <= k < |f| ensures f[k] in imoveis && Matches(c, f[k]) {
      assert f[k] in f;
    }
    forall k | 0 <= k < |imoveis| && Matches(c, imoveis[k]) ensures imoveis[k] in f {
      assert imoveis[k] in imoveis;
    }
  }

  /** Every kept listing comes from the list and meets the category, kind
      and price filters that are active. */
  lemma KeptListingsMatch(m: Matchers, imoveis: seq<Listing>, message: string, strictTipo: bool)
    ensures var r := MessageFilters(m, imoveis, message, strictTipo);
            forall k :: 0 <= k < |r| ==>
              && r[k] in imoveis
              && (DetectCategory(message).Some? ==> r[k].categoria == DetectCategory(message).value)
              && (strictTipo && DetectTipoImovel(message).Some? ==> Contains(Haystack(r[k]), DetectTipoImovel(message).value))
              && (ParsePriceFilter(m, message).Some? ==> InBounds(ActivePrice(r[k]), ParsePriceFilter(m, message).value))
  {
    var c := CriteriaOf(m, imoveis, message, strictTipo);
    StagedMembers(c, imoveis);
    assert c.categoria == DetectCategory(message) && c.price == ParsePriceFilter(m, message);
    assert c.tipo == if strictTipo then DetectTipoImovel(message) else None;
  }

  /** Every kept listing is at the neighbourhood and the city first
      mentioned, when the message mentions one. */
  lemma KeptListingsLocated(m: Matchers, imoveis: seq<Listing>, message: string, strictTipo: bool)
    ensures var r := MessageFilters(m, imoveis, message, strictTipo);
            var bairro, cidade := LocationMatch(Bairros(imoveis), Normalize(message)), LocationMatch(Cidades(imoveis), Normalize(message));
            forall k :: 0 <= k < |r| ==>
              && (bairro.Some? ==> r[k].bairro == bairro.value)
              && (cidade.Some? ==> r[k].cidade == cidade.value)
  {
    var c := CriteriaOf(m, imoveis, message, strictTipo);
    StagedMembers(c, imoveis);
  }

  /** Every listing that meets all the active filters is kept. */
  lemma MatchingListingsKept(m: Matchers, imoveis: seq<Listing>, message: string, strictTipo: bool, k: nat)
    requires k < |imoveis| && Matches(CriteriaOf(m, imoveis, message, strictTipo), imoveis[k])
    ensures imoveis[k] in MessageFilters(m, imoveis, message, strictTipo)
  {
    StagedMembers(CriteriaOf(m, imoveis, message, strictTipo), imoveis);
  }

  /** The names of a sub-list are names of the list. */
  lemma NamesOfSublist(sub: seq<Listing>, imoveis: seq<Listing>)
    requires forall k :: 0 <= k < |sub| ==> sub[k] in imoveis
    ensures forall k :: 0 <= k < |sub| ==> Bairros(sub)[k] in Bairros(imoveis)
    ensures forall k :: 0 <= k < |sub| ==> Cidades(sub)[k] in Cidades(imoveis)
  {
    forall k | 0 <= k < |sub|
      ensures Bairros(sub)[k] in Bairros(imoveis) && Cidades(sub)[k] in Cidades(imoveis)
    {
      var j :| 0 <= j < |imoveis| && imoveis[j] == sub[k];
      assert Bairros(imoveis)[j] == sub[k].bairro && Cidades(imoveis)[j] == sub[k].cidade;
    }
  }

  /** Taking fewer names, all of them at the location first mentioned (or with
      no name mentioned at all), leaves the first mention as it was. */
  lemma FirstMentionStable(subNames: seq<string>, names: seq<string>, text: string)
    requires |subNames| > 0
    requires forall k :: 0 <= k < |subNames| ==> subNames[k] in names
    requires (Find(DistinctNames(names), Mentioned(text)).None? ||
               forall k :: 0 <= k < |subNames| ==> subNames[k] == Find(DistinctNames(names), Mentioned(text)).value)
    ensures Find(DistinctNames(subNames), Mentioned(text)) == Find(DistinctNames(names), Mentioned(text))
  {
    if Find(DistinctNames(names), Mentioned(text)).None? {
      NoMentionStable(subNames, names, text);
    } else {
      MentionStable(subNames, names, text);
    }
  }

  /** Fewer names than none mentioned are none mentioned. */
  lemma NoMentionStable(subNames: seq<string>, names: seq<string>, text: string)
    requires forall k :: 0 <= k < |subNames| ==> subNames[k] in names
    requires Find(DistinctNames(names), Mentioned(text)).None?
    ensures Find(DistinctNames(subNames), Mentioned(text)).None?
  {
    DistinctNamesMembers(subNames);
    DistinctNamesMembers(names);
    var cands, subCands := DistinctNames(names), DistinctNames(subNames);
    forall j | 0 <= j < |subCands| ensures !Mentioned(text)(subCands[j]) {
      var n := subCands[j];
      assert n in subCands;
      var k :| 0 <= k < |subNames| && subNames[k] == n;
      assert n in names;
      assert n in cands;
      var i :| 0 <= i < |cands| && cands[i] == n;
    }
  }

  /** Names that are all the first one mentioned have it as first mention. */
  lemma MentionStable(subNames: seq<string>, names: seq<string>, text: string)
    requires |subNames| > 0
    requires Find(DistinctNames(names), Mentioned(text)).Some?
    requires forall k :: 0 <= k < |subNames| ==> subNames[k] == Find(DistinctNames(names), Mentioned(text)).value
    ensures Find(DistinctNames(subNames), Mentioned(text)) == Find(DistinctNames(names), Mentioned(text))
  {
    DistinctNamesMembers(subNames);
    DistinctNamesMembers(names);
    var cands, subCands := DistinctNames(names), DistinctNames(subNames);
    var b := Find(cands, Mentioned(text)).value;
    assert b in cands;
    assert subNames[0] == b;
    assert b in subNames;
    assert b in subCands;
    forall j | 0 <= j < |subCands| ensures subCands[j] == b {
      assert subCands[j] in subCands;
      var k :| 0 <= k < |subNames| && subNames[k] == subCands[j];
    }
    FindAt(subCands, Mentioned(text), 0);
  }

  /** Applying the same criteria twice is applying them once. */
  lemma StagedTwice(c: Criteria, imoveis: seq<Listing>)
    ensures Staged(c, Staged(c, imoveis)) == Staged(c, imoveis)
  {
    var once := Staged(c, imoveis);
    StagedMembers(c, imoveis);
    StagedIsOneFilter(c, once);
    FilterAll(once, i => Matches(c, i));
  }

  /** What the staged filters keep is at the neighbourhood first
      mentioned, which stays the first mentioned among its own names. */
  lemma BairroStable(c: Criteria, imoveis: seq<Listing>, text: string)
    requires |Staged(c, imoveis)| > 0 && c.bairro == LocationMatch(Bairros(imoveis), text)
    ensures LocationMatch(Bairros(Staged(c, imoveis)), text) == c.bairro
  {
    var once := Staged(c, imoveis);
    StagedMembers(c, imoveis);
    NamesOfSublist(once, imoveis);
    forall k | 0 <= k < |once| ensures c.bairro.None? || Bairros(once)[k] == c.bairro.value {
      assert Matches(c, once[k]);
    }
    FirstMentionStable(Bairros(once), Bairros(imoveis), text);
  }

  /** The same for the city. */
  lemma CidadeStable(c: Criteria, imoveis: seq<Listing>, text: string)
    requires |Staged(c, imoveis)| > 0 && c.cidade == LocationMatch(Cidades(imoveis), text)
    ensures LocationMatch(Cidades(Staged(c, imoveis)), text) == c.cidade
  {
    var once := Staged(c, imoveis);
    StagedMembers(c, imoveis);
    NamesOfSublist(once, imoveis);
    forall k | 0 <= k < |once| ensures c.cidade.None? || Cidades(once)[k] == c.cidade.value {
      assert Matches(c, once[k]);
    }
    FirstMentionStable(Cidades(once), Cidades(imoveis), text);
  }

  /** A non-empty result asks the message for the same criteria as the list it
      came from: the first location mentioned stays the first. */
  lemma CriteriaStable(m: Matchers, imoveis: seq<Listing>, message: string, strictTipo: bool)
    requires |MessageFilters(m, imoveis, message, strictTipo)| > 0
    ensures var once := MessageFilters(m, imoveis, message, strictTipo);
            CriteriaOf(m, once, message, strictTipo) == CriteriaOf(m, imoveis, message, strictTipo)
  {
    var c := CriteriaOf(m, imoveis, message, strictTipo);
    BairroStable(c, imoveis, Normalize(message));
    CidadeStable(c, imoveis, Normalize(message));
  }

  /** Filtering twice with the same message is filtering once. */
  lemma MessageFiltersIdempotent(m: Matchers, imoveis: seq<Listing>, message: string, strictTipo: bool)
    ensures var once := MessageFilters(m, imoveis, message, strictTipo);
            MessageFilters(m, once, message, strictTipo) == once
  {
    var c := CriteriaOf(m, imoveis, message, strictTipo);
    var once := MessageFilters(m, imoveis, message, strictTipo);
    StagedTwice(c, imoveis);
    if |once| > 0 {
      CriteriaStable(m, imoveis, message, strictTipo);
    } else {
      StagedIsOneFilter(CriteriaOf(m, once, message, strictTipo), once);
    }
  }

  /** No candidate name is mentioned when every non-empty name normalises to a
      non-empty text that the message does not contain. */
  lemma NoCandidateMentioned(names: seq<string>, text: string)
    requires forall k :: 0 <= k < |names| && names[k] != "" ==> !Contains(text, Normalize(names[k]))
    ensures Find(DistinctNames(names), Mentioned(text)).None?
  {
    DistinctNamesMembers(names);
    var cands := DistinctNames(names);
    forall j | 0 <= j < |cands| ensures !Mentioned(text)(cands[j]) {
      assert cands[j] in cands;
      var i :| 0 <= i < |names| && names[i] == cands[j];
    }
  }

  /** The empty message asks for nothing, so it keeps every listing, as long
      as the matchers only capture what is written and no location name
      normalises to the empty string. */
  lemma EmptyMessageKeepsAll(m: Matchers, imoveis: seq<Listing>, strictTipo: bool)
    requires Sound(m)
    requires forall k :: 0 <= k < |imoveis| ==> Normalize(imoveis[k].bairro) != "" || imoveis[k].bairro == ""
    requires forall k :: 0 <= k < |imoveis| ==> Normalize(imoveis[k].cidade) != "" || imoveis[k].cidade == ""
    ensures MessageFilters(m, imoveis, "", strictTipo) == imoveis
  {
    NoNumberNoPriceFilter(m, "");
    assert Normalize("") == "";
    NoCandidateMentioned(Bairros(imoveis), "");
    NoCandidateMentioned(Cidades(imoveis), "");
    EmptyMessageDetectsNothing();
    var c := CriteriaOf(m, imoveis, "", strictTipo);
    assert c.categoria.None? && c.tipo.None? && c.price.None?;
    assert c.bairro.None? && c.cidade.None?;
  }

  /** A combining mark alone is a non-empty name that normalises to nothing. */
  lemma CombiningMarkVanishes()
    ensures Normalize("\U{301}") == ""
  {
  }

  /** A first neighbourhood that normalises to the empty string is mentioned by
      every message, since every text contains the empty string. */
  lemma EmptyNormalizedNameMentioned(imoveis: seq<Listing>, text: string)
    requires |imoveis| > 0 && imoveis[0].bairro != "" && Normalize(imoveis[0].bairro) == ""
    ensures LocationMatch(Bairros(imoveis), text) == Some(imoveis[0].bairro)
  {
    var names := Bairros(imoveis);
    FirstDistinctName(names);
    assert OccursAt(text, "", 0);
    assert Mentioned(text)(DistinctNames(names)[0]);
    FindAt(DistinctNames(names), Mentioned(text), 0);
  }

  /** So whatever the message says, the result holds only listings in that
      neighbourhood. */
  lemma EmptyNormalizedNameNarrows(m: Matchers, imoveis: seq<Listing>, message: string, strictTipo: bool)
    requires |imoveis| > 0 && imoveis[0].bairro != "" && Normalize(imoveis[0].bairro) == ""
    ensures var r := MessageFilters(m, imoveis, message, strictTipo);
            forall k :: 0 <= k < |r| ==> r[k].bairro == imoveis[0].bairro
  {
    EmptyNormalizedNameMentioned(imoveis, Normalize(message));
    KeptListingsLocated(m, imoveis, message, strictTipo);
  }
}
