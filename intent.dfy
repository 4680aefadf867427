/** What a chat message asks for besides a price: the category of the deal
    (`detectCategory`, src/server.js:190-199) and the kind of property
    (`detectTipoImovel`, src/server.js:201-208). Both look for keywords in the
    normalised message; the first group of keywords that occurs decides. */
module Intent {
  import opened Wrappers
  import opened Strings
  import opened TextNormal

  /** `detectCategory(message)`. The keyword 'locação' keeps its accent, so it can
      never occur in normalised text (`AccentedKeywordsNeverMatch`). */
  function DetectCategory(message: string): (r: Option<string>)
    ensures r.Some? ==> r.value == "Aluguel" || r.value == "Venda"
  {
    var text := Normalize(message);
    if Contains(text, "aluguel") || Contains(text, "locacao") || Contains(text, "locação") then Some("Aluguel")
    else if Contains(text, "venda") || Contains(text, "comprar") || Contains(text, "compra") then Some("Venda")
    else None
  }

  /** `detectTipoImovel(message)`; 'estúdio' is dead in the same way. */
  function DetectTipoImovel(message: string): (r: Option<string>)
    ensures r.Some? ==> r.value in ["casa", "apartamento", "cobertura", "studio"]
  {
    var text := Normalize(message);
    if Contains(text, "casa") then Some("casa")
    else if Contains(text, "apartamento") || Contains(text, "apto") then Some("apartamento")
    else if Contains(text, "cobertura") then Some("cobertura")
    else if Contains(text, "studio") || Contains(text, "estudio") || Contains(text, "estúdio") then Some("studio")
    else None
  }

  /** The accented keywords are never found: 'ç' and 'ú' do not survive
      normalisation. */
  lemma AccentedKeywordsNeverMatch(message: string)
    ensures !Contains(Normalize(message), "locação")
    ensures !Contains(Normalize(message), "estúdio")
  {
    NeverInNormalized(message, "locação", 4);
    NeverInNormalized(message, "estúdio", 3);
  }

  /** A keyword that extends another adds nothing. */
  lemma RedundantKeywords(text: string)
    ensures Contains(text, "comprar") ==> Contains(text, "compra")
    ensures Contains(text, "estudio") ==> Contains(text, "studio")
  {
    if Contains(text, "comprar") {
      var i :| OccursAt(text, "comprar", i);
      assert text[i..i + 6] == "compra" by {
        assert text[i..i + 6] == text[i..i + 7][..6];
      }
      assert OccursAt(text, "compra", i);
    }
    if Contains(text, "estudio") {
      var i :| OccursAt(text, "estudio", i);
      assert text[i + 1..i + 7] == "studio" by {
        assert text[i + 1..i + 7] == text[i..i + 7][1..];
      }
      assert OccursAt(text, "studio", i + 1);
    }
  }

  /** The category in terms of the keywords that can actually occur: rent wins
      over sale. */
  lemma CategoryKeywords(message: string)
    ensures var text := Normalize(message);
            DetectCategory(message) == Some("Aluguel") <==> Contains(text, "aluguel") || Contains(text, "locacao")
    ensures var text := Normalize(message);
            DetectCategory(message) == Some("Venda") <==>
              !Contains(text, "aluguel") && !Contains(text, "locacao") && (Contains(text, "venda") || Contains(text, "compra"))
    ensures var text := Normalize(message);
            DetectCategory(message).None? <==>
              !Contains(text, "aluguel") && !Contains(text, "locacao") && !Contains(text, "venda") && !Contains(text, "compra")
  {
    AccentedKeywordsNeverMatch(message);
    RedundantKeywords(Normalize(message));
  }

  /** The kind in terms of the keywords that can actually occur: casa wins
      over apartamento or apto, which win over cobertura, which wins over
      studio. Every kind but "apartamento" (also found as "apto") occurs in
      the message itself. */
  lemma TipoKeywords(message: string)
    ensures var text := Normalize(message);
            DetectTipoImovel(message) == Some("casa") <==> Contains(text, "casa")
    ensures var text := Normalize(message);
            DetectTipoImovel(message) == Some("apartamento") <==>
              !Contains(text, "casa") && (Contains(text, "apartamento") || Contains(text, "apto"))
    ensures var text := Normalize(message);
            DetectTipoImovel(message) == Some("cobertura") <==>
              !Contains(text, "casa") && !Contains(text, "apartamento") && !Contains(text, "apto")
              && Contains(text, "cobertura")
    ensures var text := Normalize(message);
            DetectTipoImovel(message) == Some("studio") <==>
              !Contains(text, "casa") && !Contains(text, "apartamento") && !Contains(text, "apto")
              && !Contains(text, "cobertura") && Contains(text, "studio")
    ensures var text := Normalize(message);
            DetectTipoImovel(message).Some? && DetectTipoImovel(message) != Some("apartamento") ==>
              Contains(text, DetectTipoImovel(message).value)
    ensures var text := Normalize(message);
            DetectTipoImovel(message).None? <==>
              !Contains(text, "casa") && !Contains(text, "apartamento") && !Contains(text, "apto")
              && !Contains(text, "cobertura") && !Contains(text, "studio")
  {
    AccentedKeywordsNeverMatch(message);
    RedundantKeywords(Normalize(message));
  }

  /** Both detections ignore case and accents. */
  lemma DetectionIgnoresNormalization(message: string)
    ensures DetectCategory(Normalize(message)) == DetectCategory(message)
    ensures DetectTipoImovel(Normalize(message)) == DetectTipoImovel(message)
  {
    NormalizeIdempotent(message);
  }

  /** The verb "alugar" names no category: it is not a keyword and no keyword
      occurs in it, whatever its case or accents. */
  lemma AlugarIsNotAKeyword(message: string)
    requires Normalize(message) == "alugar"
    ensures DetectCategory(message).None?
  {
    var text := Normalize(message);
    FirstCharAbsent(text, "venda");
    FirstCharAbsent(text, "compra");
    LongerAbsent(text, "comprar");
    LongerAbsent(text, "locacao");
    LongerAbsent(text, "locação");
    LongerAbsent(text, "aluguel");
  }

  /** For instance the verb as written. */
  lemma AlugarExample()
    ensures DetectCategory("alugar").None?
  {
    AsciiLowerIsNormal("alugar");
    AlugarIsNotAKeyword("alugar");
  }

  /** A text is too short to contain a longer one. */
  lemma LongerAbsent(s: string, t: string)
    requires |t| > |s|
    ensures !Contains(s, t)
  {
  }

  /** The empty message names neither a category nor a kind. */
  lemma EmptyMessageDetectsNothing()
    ensures DetectCategory("").None? && DetectTipoImovel("").None?
  {
    assert Normalize("") == "";
  }

  /** "Locação" is written "locacao" once normalised ... */
  lemma LocacaoNormalizes()
    ensures Normalize("Locação") == "locacao"
  {
    assert "Locação" == "Loc" + "ação";
    NormalizeConcat("Loc", "ação");
    LocNormalizes();
    AcaoNormalizes();
    assert "loc" + "acao" == "locacao";
  }

  lemma LocNormalizes()
    ensures Normalize("Loc") == "loc"
  {
    assert Fold('L') == "l";
  }

  lemma AcaoNormalizes()
    ensures Normalize("ação") == "acao"
  {
    assert Fold('ç') == "c" && Fold('ã') == "a";
  }

  /** ... and so is rent, through its unaccented spelling. */
  lemma LocacaoIsRent(message: string)
    requires Normalize(message) == Normalize("Locação")
    ensures DetectCategory(message) == Some("Aluguel")
  {
    LocacaoNormalizes();
    assert OccursAt(Normalize(message), "locacao", 0);
  }
}
