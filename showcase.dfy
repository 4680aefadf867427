/** The public page's listing shelves (`renderImoveis`,
    src/public/js/app.js:296-333) and the round trip of a listing's location
    through the chat: the server writes it as one `local` text
    (src/server.js:401) and the page splits it back into neighbourhood and
    city (src/public/js/app.js:256-257). Card markup is left out. */
module Showcase {
  import opened Wrappers
  import opened Strings
  import opened Seqs
  import opened Listings

  /** What `renderImoveis` shows: a "nothing found" notice on both shelves,
      or the sale and the rental listings. */
  datatype Shelves = NothingFound | Shelves(vendas: seq<Listing>, alugueis: seq<Listing>)

  predicate ForSale(i: Listing) {
    i.categoria == "Venda"
  }

  predicate ForRent(i: Listing) {
    i.categoria == "Aluguel"
  }

  function RenderShelves(data: seq<Listing>): (r: Shelves)
    ensures r.NothingFound? <==> data == []
  {
    if data == [] then NothingFound
    else Shelves(Filter(data, ForSale), Filter(data, ForRent))
  }

  /** Each shelf holds exactly the listings of its category, in their order;
      no listing is on both, and one of any other category is on neither. */
  lemma ShelvesPartition(data: seq<Listing>)
    requires data != []
    ensures forall i :: i in RenderShelves(data).vendas <==> i in data && i.categoria == "Venda"
    ensures forall i :: i in RenderShelves(data).alugueis <==> i in data && i.categoria == "Aluguel"
    ensures forall i :: !(i in RenderShelves(data).vendas && i in RenderShelves(data).alugueis)
    ensures IsSubsequence(RenderShelves(data).vendas, data) && IsSubsequence(RenderShelves(data).alugueis, data)
  {
    FilterMembers(data, ForSale);
    FilterMembers(data, ForRent);
    FilterIsSubsequence(data, ForSale);
    FilterIsSubsequence(data, ForRent);
  }

  /** Listings of the two categories together fill both shelves exactly. */
  lemma {:induction false} ShelvesCount(data: seq<Listing>)
    requires forall k :: 0 <= k < |data| ==> data[k].categoria == "Venda" || data[k].categoria == "Aluguel"
    ensures |Filter(data, ForSale)| + |Filter(data, ForRent)| == |data|
  {
    if data != [] {
      ShelvesCount(data[1..]);
    }
  }

  /** The separator between the two parts of `local`. */
  const Dash := " - "

  /** `${bairro} - ${cidade}` (src/server.js:401). */
  function Local(bairro: string, cidade: string): string {
    bairro + Dash + cidade
  }

  /** `local.split(' - ')[0] || ''` and `local.split(' - ')[1] || ''`. */
  function LocalParts(local: string): (string, string) {
    var parts := Split(local, Dash);
    (parts[0], if |parts| > 1 then parts[1] else "")
  }

  /** The first occurrence is found where `t` occurs with none before it. */
  lemma IndexOfFirst(s: string, t: string, i: nat)
    requires |t| > 0 && OccursAt(s, t, i)
    requires forall j :: 0 <= j < i ==> !OccursAt(s, t, j)
    ensures IndexOf(s, t) == Some(i)
  {
    assert Contains(s, t);
  }

  /** " - " at `j`, character by character. */
  lemma DashAt(s: string, j: int)
    ensures OccursAt(s, Dash, j) <==> 0 <= j && j + 3 <= |s| && s[j] == ' ' && s[j + 1] == '-' && s[j + 2] == ' '
  {
    if 0 <= j && j + 3 <= |s| {
      assert s[j..j + 3] == [s[j], s[j + 1], s[j + 2]];
    }
  }

  /** No " - " starts inside a neighbourhood that neither contains one nor
      ends in " -". */
  lemma DashNotInside(bairro: string, cidade: string, j: nat)
    requires !OccursAt(bairro, Dash, j) && j < |bairro|
    requires |bairro| >= 2 ==> bairro[|bairro| - 2] != ' ' || bairro[|bairro| - 1] != '-'
    ensures !OccursAt(Local(bairro, cidade), Dash, j)
  {
    var s := Local(bairro, cidade);
    var n := |bairro|;
    if j + 3 <= n {
      assert s[j..j + 3] == bairro[j..j + 3];
    } else if j == n - 2 {
      DashAt(s, j);
      assert s[j] == bairro[n - 2] && s[j + 1] == bairro[n - 1];
    } else {
      DashAt(s, j);
      assert s[j + 1] == ' ';
    }
  }

  /** The first piece of `local` is such a neighbourhood, and the other
      pieces are those of the city. */
  lemma LocalPieces(bairro: string, cidade: string)
    requires !Contains(bairro, Dash) && !EndsWith(bairro, " -")
    ensures Split(Local(bairro, cidade), Dash) == [bairro] + Split(cidade, Dash)
  {
    var s := Local(bairro, cidade);
    var n := |bairro|;
    DashAt(s, n);
    if n >= 2 {
      assert bairro[n - 2..] == [bairro[n - 2], bairro[n - 1]];
    }
    forall j | 0 <= j < n
      ensures !OccursAt(s, Dash, j)
    {
      DashNotInside(bairro, cidade, j);
    }
    IndexOfFirst(s, Dash, n);
    assert s[..n] == bairro && s[n + 3..] == cidade;
  }

  /** The page recovers both parts when the neighbourhood neither contains
      " - " nor ends in " -" and the city does not contain " - ". */
  lemma LocalRoundTrip(bairro: string, cidade: string)
    requires !Contains(bairro, Dash) && !EndsWith(bairro, " -") && !Contains(cidade, Dash)
    ensures LocalParts(Local(bairro, cidade)) == (bairro, cidade)
  {
    LocalPieces(bairro, cidade);
  }

  /** Moving " -" from the end of the neighbourhood to the front of the
      city gives the same `local`. */
  lemma LocalShift(bairro: string, cidade: string)
    ensures Local(bairro + " -", cidade) == Local(bairro, "- " + cidade)
  {
    assert Dash == [' ', '-', ' '] && " -" == [' ', '-'] && "- " == ['-', ' '];
    assert Local(bairro + " -", cidade) == bairro + [' ', '-', ' ', '-', ' '] + cidade;
  }

  /** No " - " in "- " followed by a city that neither contains one nor
      starts with "- ". */
  lemma DashNotInRest(cidade: string, j: int)
    requires !OccursAt(cidade, Dash, j - 2)
    requires |cidade| >= 2 ==> cidade[0] != '-' || cidade[1] != ' '
    ensures !OccursAt(['-', ' '] + cidade, Dash, j)
  {
    var rest := ['-', ' '] + cidade;
    DashAt(rest, j);
    DashAt(cidade, j - 2);
    if 2 <= j && j + 3 <= |rest| {
      assert rest[j] == cidade[j - 2] && rest[j + 1] == cidade[j - 1] && rest[j + 2] == cidade[j];
    } else if j == 1 && j + 3 <= |rest| {
      assert rest[2] == cidade[0] && rest[3] == cidade[1];
    }
  }

  /** "- " before such a city does not make a " - ". */
  lemma RestWithoutDash(cidade: string)
    requires !Contains(cidade, Dash) && !StartsWith(cidade, "- ")
    ensures !Contains("- " + cidade, Dash)
  {
    var rest := "- " + cidade;
    assert rest == ['-', ' '] + cidade;
    if |cidade| >= 2 {
      assert cidade[..2] == [cidade[0], cidade[1]];
    }
    forall j ensures !OccursAt(rest, Dash, j) {
      DashNotInRest(cidade, j);
    }
  }

  /** A neighbourhood ending in " -" loses that ending, which goes to the
      front of the city, even though neither part contains " - ". */
  lemma LocalTrailingDash(bairro: string, cidade: string)
    requires !Contains(bairro, Dash) && !EndsWith(bairro, " -")
    requires !Contains(cidade, Dash) && !StartsWith(cidade, "- ")
    ensures LocalParts(Local(bairro + " -", cidade)) == (bairro, "- " + cidade)
    ensures LocalParts(Local(bairro + " -", cidade)) != (bairro + " -", cidade)
  {
    LocalShift(bairro, cidade);
    LocalPieces(bairro, "- " + cidade);
    RestWithoutDash(cidade);
    assert |bairro + " -"| != |bairro|;
  }
}
