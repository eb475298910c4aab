/**
  The stock movements view: each movement joined to its product, the entry/exit
  type filter, the three counters, and the text shown for each row.
*/
module MovimentacoesList {
  import opened Records
  import opened Sequences
  import opened Text

  /** The selector value that passes every movement. */
  const AllTipos := "all"

  /** A movement with the product found for it, if any. */
  datatype MovimentacaoCompleta = MovimentacaoCompleta(mov: Movimentacao, produto: Option<Produto>)

  /** No product before position `k` has identifier `id`. */
  ghost predicate NoMatchBefore(produtos: seq<Produto>, id: int, k: int)
  {
    forall j :: 0 <= j < k && j < |produtos| ==> produtos[j].id != id
  }

  /** `found` is what a left-to-right search for identifier `id` finds: nothing when no
      product has that identifier, otherwise the product at the first position that has it. */
  ghost predicate IsFirstMatch(produtos: seq<Produto>, id: int, found: Option<Produto>)
  {
    && (found.None? <==> forall p :: p in produtos ==> p.id != id)
    && (found.Some? ==> found.value in produtos && found.value.id == id)
    && forall k :: 0 <= k < |produtos| && produtos[k].id == id && NoMatchBefore(produtos, id, k) ==>
         found == Some(produtos[k])
  }

  /** `produtos.find(prod => prod.id === id)`. */
  function FindProduto(produtos: seq<Produto>, id: int): (r: Option<Produto>)
    ensures IsFirstMatch(produtos, id, r)
    decreases |produtos|
  {
    if produtos == [] then None
    else if produtos[0].id == id then Some(produtos[0])
    else
      var r := FindProduto(produtos[1..], id);
      assert forall k :: 1 <= k < |produtos| && NoMatchBefore(produtos, id, k) ==> NoMatchBefore(produtos[1..], id, k - 1);
      assert forall p :: p in produtos ==> p == produtos[0] || p in produtos[1..];
      r
  }

  /** The searched-for product is unique: a second candidate satisfying the same
      description is the same answer. */
  lemma FirstMatchIsUnique(produtos: seq<Produto>, id: int, a: Option<Produto>, b: Option<Produto>)
    requires IsFirstMatch(produtos, id, a) && IsFirstMatch(produtos, id, b)
    ensures a == b
  {
    if a.Some? {
      var k := FirstIndexWithId(produtos, id);
    }
  }

  /** The first position holding identifier `id`, when there is one. */
  lemma FirstIndexWithId(produtos: seq<Produto>, id: int) returns (k: nat)
    requires exists p :: p in produtos && p.id == id
    ensures k < |produtos| && produtos[k].id == id && NoMatchBefore(produtos, id, k)
    decreases |produtos|
  {
    if produtos[0].id == id {
      k := 0;
    } else {
      var p :| p in produtos && p.id == id;
      assert p in produtos[1..];
      var k' := FirstIndexWithId(produtos[1..], id);
      k := k' + 1;
    }
  }

  /** With unique product identifiers, the join finds a product exactly when it has the
      movement's identifier. */
  lemma FirstMatchWithUniqueIds(produtos: seq<Produto>, id: int, found: Option<Produto>, p: Produto)
    requires forall i, j :: 0 <= i < j < |produtos| ==> produtos[i].id != produtos[j].id
    requires IsFirstMatch(produtos, id, found)
    ensures found == Some(p) <==> p in produtos && p.id == id
  {
    if p in produtos && p.id == id {
      var k :| 0 <= k < |produtos| && produtos[k] == p;
      assert NoMatchBefore(produtos, id, k);
    }
  }

  /** Each movement, in order and unchanged, with the first product carrying its `produtoId`. */
  function Join(movs: seq<Movimentacao>, produtos: seq<Produto>): (r: seq<MovimentacaoCompleta>)
    ensures |r| == |movs|
    ensures forall i :: 0 <= i < |r| ==> r[i].mov == movs[i] && IsFirstMatch(produtos, movs[i].produtoId, r[i].produto)
  {
    seq(|movs|, i requires 0 <= i < |movs| => MovimentacaoCompleta(movs[i], FindProduto(produtos, movs[i].produtoId)))
  }

  const FallbackPrefix := "Produto ID "

  /** The heading of a row: the product's name when there is one, otherwise
      "Produto ID " followed by the movement's `produtoId` written in decimal. */
  function DisplayName(m: MovimentacaoCompleta): (r: string)
    ensures r != []
    ensures m.produto.Some? && m.produto.value.nome != "" ==> r == m.produto.value.nome
    ensures m.produto.None? || m.produto.value.nome == "" ==>
              r == FallbackPrefix + IntToDecimal(m.mov.produtoId)
  {
    if m.produto.Some? && m.produto.value.nome != "" then m.produto.value.nome
    else FallbackPrefix + IntToDecimal(m.mov.produtoId)
  }

  /** The unit shown next to the quantity: the product's unit, or "un". */
  function DisplayUnit(m: MovimentacaoCompleta): (r: string)
    ensures r != []
    ensures m.produto.Some? && m.produto.value.unidade != "" ==> r == m.produto.value.unidade
    ensures m.produto.None? || m.produto.value.unidade == "" ==> r == "un"
  {
    if m.produto.Some? && m.produto.value.unidade != "" then m.produto.value.unidade else "un"
  }

  /** The sign printed before the quantity. */
  function Sign(tipo: string): (r: char)
    ensures r == '+' || r == '-'
    ensures r == '+' <==> tipo == "entrada"
  {
    if tipo == "entrada" then '+' else '-'
  }

  /** The fallback label names the product identifier unambiguously: two rows that both
      fall back show the same heading only for the same `produtoId`. */
  lemma FallbackLabelIdentifiesProduct(m1: MovimentacaoCompleta, m2: MovimentacaoCompleta)
    requires m1.produto.None? || m1.produto.value.nome == ""
    requires m2.produto.None? || m2.produto.value.nome == ""
    requires DisplayName(m1) == DisplayName(m2)
    ensures m1.mov.produtoId == m2.mov.produtoId
  {
    var s1, s2 := IntToDecimal(m1.mov.produtoId), IntToDecimal(m2.mov.produtoId);
    assert (FallbackPrefix + s1)[|FallbackPrefix|..] == s1;
    assert (FallbackPrefix + s2)[|FallbackPrefix|..] == s2;
    IntToDecimalInjective(m1.mov.produtoId, m2.mov.produtoId);
  }

  /** An exit of 8 units of product 99, with no product 99 loaded, is shown as
      "Produto ID 99", "-8" and unit "un". */
  lemma DanglingReferenceExample(produtos: seq<Produto>)
    requires forall p :: p in produtos ==> p.id != 99
    ensures var m := Join([Movimentacao(2, 99, "saida", 8, InvalidDate, "", "")], produtos)[0];
            && m.produto == None
            && DisplayName(m) == "Produto ID 99"
            && DisplayUnit(m) == "un"
            && Sign(m.mov.tipo) == '-'
  {
    assert NatToDecimal(99) == NatToDecimal(9) + [DigitChar(9)];
  }

  function TipoFilter(filter: string): MovimentacaoCompleta -> bool
  {
    (m: MovimentacaoCompleta) => filter == AllTipos || m.mov.tipo == filter
  }

  /** The rows shown for the selected type: all of them for "all", otherwise exactly the
      movements of that type, each as often as in the input, in input order. */
  function FilteredMovimentacoes(movs: seq<MovimentacaoCompleta>, filter: string): (r: seq<MovimentacaoCompleta>)
    ensures filter == AllTipos ==> r == movs
    ensures filter != AllTipos ==> forall m :: m in r <==> m in movs && m.mov.tipo == filter
    ensures forall m :: multiset(r)[m] ==
              if filter == AllTipos || m.mov.tipo == filter then multiset(movs)[m] else 0
    ensures IsSubseq(r, movs)
  {
    FilterAllPass(TipoFilter(filter), movs);
    FilterIsSubseq(TipoFilter(filter), movs);
    FilterMultiset(TipoFilter(filter), movs);
    Filter(TipoFilter(filter), movs)
  }

  datatype MovimentacaoStats = MovimentacaoStats(entradas: nat, saidas: nat, total: nat)

  predicate IsEntrada(m: MovimentacaoCompleta) { m.mov.tipo == "entrada" }

  predicate IsSaida(m: MovimentacaoCompleta) { m.mov.tipo == "saida" }

  /** The three counters, over all movements regardless of the selected filter. */
  function ComputeStats(movs: seq<MovimentacaoCompleta>): (r: MovimentacaoStats)
    ensures r.total == |movs|
    ensures r.entradas == |Positions(IsEntrada, movs)|
    ensures r.saidas == |Positions(IsSaida, movs)|
    ensures r.entradas + r.saidas <= r.total
  {
    FilterLengthIsCount(IsEntrada, movs);
    FilterLengthIsCount(IsSaida, movs);
    DisjointFilterLengths(IsEntrada, IsSaida, movs);
    MovimentacaoStats(|Filter(IsEntrada, movs)|, |Filter(IsSaida, movs)|, |movs|)
  }

  /** When every movement is an entry or an exit, entries and exits add up to the total. */
  lemma EntradasPlusSaidasIsTotal(movs: seq<MovimentacaoCompleta>)
    requires forall m :: m in movs ==> m.mov.tipo == "entrada" || m.mov.tipo == "saida"
    ensures ComputeStats(movs).entradas + ComputeStats(movs).saidas == ComputeStats(movs).total
  {
    DisjointFilterLengths(IsEntrada, IsSaida, movs);
  }

  /** Selecting a type shows as many rows as its counter says. */
  lemma FilterAgreesWithStats(movs: seq<MovimentacaoCompleta>)
    ensures |FilteredMovimentacoes(movs, "entrada")| == ComputeStats(movs).entradas
    ensures |FilteredMovimentacoes(movs, "saida")| == ComputeStats(movs).saidas
    ensures |FilteredMovimentacoes(movs, AllTipos)| == ComputeStats(movs).total
  {
    FilterCongruent(TipoFilter("entrada"), IsEntrada, movs);
    FilterCongruent(TipoFilter("saida"), IsSaida, movs);
  }

  predicate ShowsPlus(m: MovimentacaoCompleta) { Sign(m.mov.tipo) == '+' }

  /** The rows drawn with a "+" are exactly the entries counted by the entry counter. */
  lemma PlusRowsAreEntradas(movs: seq<MovimentacaoCompleta>)
    ensures Filter(ShowsPlus, movs) == Filter(IsEntrada, movs)
    ensures |Filter(ShowsPlus, movs)| == ComputeStats(movs).entradas
  {
    FilterCongruent(ShowsPlus, IsEntrada, movs);
  }
}
