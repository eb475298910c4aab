/**
  The dashboard's derived statistics and its list of products needing attention,
  computed from the product list and the current instant.
*/
module Dashboard {
  import opened Records
  import opened Sequences

  const DayMs: int := 24 * 60 * 60 * 1000

  /** How far ahead a product counts as "expiring soon". */
  const ThirtyDaysMs: int := 30 * DayMs

  datatype DashboardStats = DashboardStats(
    totalProdutos: nat,
    produtosBaixoEstoque: nat,
    produtosVencendo: nat,
    produtosAprovados: nat)

  /** The statistics shown before the product list has arrived. */
  const InitialStats := DashboardStats(0, 0, 0, 0)

  predicate IsLowStock(p: Produto)
  {
    p.status == "baixo" || p.status == "critico"
  }

  /** The expiry date parses to an instant no later than `cutoff`. */
  predicate ExpiresBy(cutoff: int, p: Produto)
  {
    p.dataVencimento.Instant? && p.dataVencimento.ms <= cutoff
  }

  function ExpiringBy(cutoff: int): Produto -> bool
  {
    p => ExpiresBy(cutoff, p)
  }

  /** Low or critical stock, or a quality analysis still pending. */
  predicate IsCritico(p: Produto)
  {
    p.status == "critico" || p.status == "baixo" || p.qualidade == "pendente"
  }

  /** The four counts, each the number of products satisfying its condition. */
  function ComputeStats(produtos: seq<Produto>, now: int): (r: DashboardStats)
    ensures r.totalProdutos == |produtos|
    ensures r.produtosBaixoEstoque == |Positions(IsLowStock, produtos)|
    ensures r.produtosVencendo == |Positions(ExpiringBy(now + ThirtyDaysMs), produtos)|
    ensures r.produtosAprovados == |Positions(IsAprovado, produtos)|
    ensures r.produtosBaixoEstoque <= r.totalProdutos
    ensures r.produtosVencendo <= r.totalProdutos
    ensures r.produtosAprovados <= r.totalProdutos
  {
    FilterLengthIsCount(IsLowStock, produtos);
    FilterLengthIsCount(ExpiringBy(now + ThirtyDaysMs), produtos);
    FilterLengthIsCount(IsAprovado, produtos);
    DashboardStats(
      |produtos|,
      |Filter(IsLowStock, produtos)|,
      |Filter(ExpiringBy(now + ThirtyDaysMs), produtos)|,
      |Filter(IsAprovado, produtos)|)
  }

  /** The products listed as needing attention: exactly the critical ones, each as often
      as in the input, in input order. */
  function Criticos(produtos: seq<Produto>): (r: seq<Produto>)
    ensures forall p :: p in r <==> p in produtos && (p.status == "critico" || p.status == "baixo" || p.qualidade == "pendente")
    ensures forall p :: multiset(r)[p] == if IsCritico(p) then multiset(produtos)[p] else 0
    ensures IsSubseq(r, produtos)
  {
    FilterIsSubseq(IsCritico, produtos);
    FilterMultiset(IsCritico, produtos);
    Filter(IsCritico, produtos)
  }

  lemma ThirtyDaysIsMs()
    ensures ThirtyDaysMs == 2592000000
  {
  }

  /** Every low-stock product is critical, so the critical list is at least as long as
      the low-stock count, and the low-stock products appear in it in the same order. */
  lemma LowStockWithinCriticos(produtos: seq<Produto>, now: int)
    ensures ComputeStats(produtos, now).produtosBaixoEstoque <= |Criticos(produtos)|
    ensures IsSubseq(Filter(IsLowStock, produtos), Criticos(produtos))
  {
    FilterWeakerIsSubseq(IsLowStock, IsCritico, produtos);
  }

  /** A product that has already expired at `now` counts as expiring soon. */
  lemma ExpiredCountsAsExpiring(produtos: seq<Produto>, now: int)
    ensures Positions(ExpiringBy(now), produtos) <= Positions(ExpiringBy(now + ThirtyDaysMs), produtos)
    ensures IsSubseq(Filter(ExpiringBy(now), produtos), Filter(ExpiringBy(now + ThirtyDaysMs), produtos))
    ensures |Positions(ExpiringBy(now), produtos)| <= ComputeStats(produtos, now).produtosVencendo
  {
    FilterWeakerIsSubseq(ExpiringBy(now), ExpiringBy(now + ThirtyDaysMs), produtos);
    FilterLengthIsCount(ExpiringBy(now), produtos);
  }

  /** An empty product list gives the same picture as the initial state. */
  lemma EmptyListMatchesInitialState(now: int)
    ensures ComputeStats([], now) == InitialStats
    ensures Criticos([]) == []
  {
  }

  ghost function Sample(id: int, status: string, qualidade: string): Produto
  {
    Produto(id, "", "", "", "", "", InvalidDate, 0, "", 0, status, qualidade, InvalidDate, 0.0, "")
  }

  /** Statuses normal, baixo, critico, baixo with qualities aprovado, pendente, aprovado,
      reprovado: three low-stock products, two approved, and every product but the first
      is critical. */
  lemma FourProductScenario(now: int)
    ensures var ps := [Sample(1, "normal", "aprovado"), Sample(2, "baixo", "pendente"),
                       Sample(3, "critico", "aprovado"), Sample(4, "baixo", "reprovado")];
            && ComputeStats(ps, now).produtosBaixoEstoque == 3
            && ComputeStats(ps, now).produtosAprovados == 2
            && Criticos(ps) == ps[1..]
  {
    var ps := [Sample(1, "normal", "aprovado"), Sample(2, "baixo", "pendente"),
               Sample(3, "critico", "aprovado"), Sample(4, "baixo", "reprovado")];
    assert ps[1..][1..][1..][1..] == [];
    assert Filter(IsLowStock, ps) == ps[1..];
    assert Filter(IsAprovado, ps) == [ps[0], ps[2]];
  }
}
