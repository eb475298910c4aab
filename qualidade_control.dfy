/**
  The quality-control view: the quality-status filter, the per-status counters and
  the "Analisar" action offered on a product's row.
*/
module QualidadeControl {
  import opened Records
  import opened Sequences

  /** The selector value that passes every product. */
  const AllQualidades := "all"

  function QualidadeFilter(filter: string): Produto -> bool
  {
    (p: Produto) => filter == AllQualidades || p.qualidade == filter
  }

  /** The products shown for the selected status: all of them for "all", otherwise
      exactly those with that status, each as often as in the input, in input order. */
  function FilteredProdutos(produtos: seq<Produto>, filter: string): (r: seq<Produto>)
    ensures filter == AllQualidades ==> r == produtos
    ensures filter != AllQualidades ==> forall p :: p in r <==> p in produtos && p.qualidade == filter
    ensures forall p :: multiset(r)[p] ==
              if filter == AllQualidades || p.qualidade == filter then multiset(produtos)[p] else 0
    ensures IsSubseq(r, produtos)
  {
    FilterAllPass(QualidadeFilter(filter), produtos);
    FilterIsSubseq(QualidadeFilter(filter), produtos);
    FilterMultiset(QualidadeFilter(filter), produtos);
    Filter(QualidadeFilter(filter), produtos)
  }

  datatype QualidadeStats = QualidadeStats(aprovados: nat, pendentes: nat, reprovados: nat)

  /** The three counters, over all products regardless of the selected filter. */
  function ComputeStats(produtos: seq<Produto>): (r: QualidadeStats)
    ensures r.aprovados == |Positions(IsAprovado, produtos)|
    ensures r.pendentes == |Positions(IsPendente, produtos)|
    ensures r.reprovados == |Positions(IsReprovado, produtos)|
  {
    FilterLengthIsCount(IsAprovado, produtos);
    FilterLengthIsCount(IsPendente, produtos);
    FilterLengthIsCount(IsReprovado, produtos);
    QualidadeStats(|Filter(IsAprovado, produtos)|, |Filter(IsPendente, produtos)|, |Filter(IsReprovado, produtos)|)
  }

  /** The row of `p` offers the "Analisar" button. */
  predicate ShowsAnalisar(p: Produto)
  {
    p.qualidade == "pendente"
  }

  /** Filtering what a filter already produced changes nothing. */
  lemma FilterIdempotent(produtos: seq<Produto>, filter: string)
    ensures FilteredProdutos(FilteredProdutos(produtos, filter), filter) == FilteredProdutos(produtos, filter)
  {
    Sequences.FilterIdempotent(QualidadeFilter(filter), produtos);
  }

  /** Selecting one of the three statuses shows as many products as its counter says. */
  lemma FilterAgreesWithStats(produtos: seq<Produto>)
    ensures |FilteredProdutos(produtos, "aprovado")| == ComputeStats(produtos).aprovados
    ensures |FilteredProdutos(produtos, "pendente")| == ComputeStats(produtos).pendentes
    ensures |FilteredProdutos(produtos, "reprovado")| == ComputeStats(produtos).reprovados
  {
    FilterCongruent(QualidadeFilter("aprovado"), IsAprovado, produtos);
    FilterCongruent(QualidadeFilter("pendente"), IsPendente, produtos);
    FilterCongruent(QualidadeFilter("reprovado"), IsReprovado, produtos);
  }

  /** The counters never exceed the number of products, and account for all of them when
      every product has one of the three statuses. */
  lemma StatsAccountForProducts(produtos: seq<Produto>)
    ensures var s := ComputeStats(produtos); s.aprovados + s.pendentes + s.reprovados <= |produtos|
    ensures (forall p :: p in produtos ==> p.qualidade in ["aprovado", "pendente", "reprovado"]) ==>
              var s := ComputeStats(produtos); s.aprovados + s.pendentes + s.reprovados == |produtos|
  {
    DisjointFilterLengths3(IsAprovado, IsPendente, IsReprovado, produtos);
  }

  /** "Analisar" appears exactly on pending products: under "all" or "pendente" as many
      times as the pending counter says, under any other selection never. */
  lemma AnalisarOnlyOnPending(produtos: seq<Produto>, filter: string)
    ensures forall p :: ShowsAnalisar(p) <==> p.qualidade == "pendente"
    ensures |Filter(ShowsAnalisar, FilteredProdutos(produtos, filter))| ==
              if filter == AllQualidades || filter == "pendente" then ComputeStats(produtos).pendentes else 0
  {
    var shown := FilteredProdutos(produtos, filter);
    if filter == AllQualidades {
      FilterCongruent(ShowsAnalisar, IsPendente, produtos);
    } else if filter == "pendente" {
      FilterAllPass(ShowsAnalisar, shown);
      FilterAgreesWithStats(produtos);
    } else {
      FilterNonePass(ShowsAnalisar, shown);
    }
  }
}
