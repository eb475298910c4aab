/**
  The product list view: free-text search over name, category and supplier,
  an exact category selector, and the category choices offered by the selector.
*/
module ProdutosList {
  import opened Records
  import opened Sequences
  import opened Text

  /** The selector value that passes every category. */
  const AllCategories := "all"

  /** Case-insensitive substring match of the search term in name, category or supplier. */
  predicate MatchesSearch(p: Produto, searchTerm: string)
  {
    var term := ToLower(searchTerm);
    Includes(ToLower(p.nome), term) || Includes(ToLower(p.categoria), term) || Includes(ToLower(p.fornecedor), term)
  }

  /** Exact, case-sensitive category match, or the "all" selector. */
  predicate MatchesCategory(p: Produto, selectedCategory: string)
  {
    selectedCategory == AllCategories || p.categoria == selectedCategory
  }

  predicate Keeps(searchTerm: string, selectedCategory: string, p: Produto)
  {
    MatchesSearch(p, searchTerm) && MatchesCategory(p, selectedCategory)
  }

  function KeepsFn(searchTerm: string, selectedCategory: string): Produto -> bool
  {
    p => Keeps(searchTerm, selectedCategory, p)
  }

  /** The products shown: exactly those matching both the search and the category,
      each as often as in the input, in input order. */
  function FilteredProdutos(produtos: seq<Produto>, searchTerm: string, selectedCategory: string): (r: seq<Produto>)
    ensures forall p :: p in r <==> p in produtos && MatchesSearch(p, searchTerm) && MatchesCategory(p, selectedCategory)
    ensures forall p :: multiset(r)[p] ==
              if Keeps(searchTerm, selectedCategory, p) then multiset(produtos)[p] else 0
    ensures IsSubseq(r, produtos)
  {
    FilterIsSubseq(KeepsFn(searchTerm, selectedCategory), produtos);
    FilterMultiset(KeepsFn(searchTerm, selectedCategory), produtos);
    Filter(KeepsFn(searchTerm, selectedCategory), produtos)
  }

  /** The category of each product, in product order. */
  function CategoriaOf(produtos: seq<Produto>): (r: seq<string>)
    ensures |r| == |produtos| && forall i :: 0 <= i < |produtos| ==> r[i] == produtos[i].categoria
  {
    seq(|produtos|, i requires 0 <= i < |produtos| => produtos[i].categoria)
  }

  /** The selector's choices: every category once, in the order its first product appears. */
  function Categories(produtos: seq<Produto>): (r: seq<string>)
    ensures NoDuplicates(r)
    ensures forall c :: c in r <==> c in CategoriaOf(produtos)
    ensures forall c :: c in r <==> exists p :: p in produtos && p.categoria == c
    ensures forall i, j :: 0 <= i < j < |r| ==>
              FirstIndex(CategoriaOf(produtos), r[i]) < FirstIndex(CategoriaOf(produtos), r[j])
  {
    var cs := CategoriaOf(produtos);
    DistinctInFirstOccurrenceOrder(cs);
    assert forall c :: c in cs ==> exists p :: p in produtos && p.categoria == c by {
      forall c | c in cs
        ensures exists p :: p in produtos && p.categoria == c
      {
        var i :| 0 <= i < |cs| && cs[i] == c;
        assert produtos[i] in produtos;
      }
    }
    assert forall p :: p in produtos ==> p.categoria in cs by {
      forall p | p in produtos
        ensures p.categoria in cs
      {
        var i :| 0 <= i < |produtos| && produtos[i] == p;
        assert cs[i] == p.categoria;
      }
    }
    Distinct(cs)
  }

  /** With the initial empty search and the "all" category, every product is shown. */
  lemma InitialFilterShowsAll(produtos: seq<Produto>)
    ensures FilteredProdutos(produtos, "", AllCategories) == produtos
  {
    forall p | p in produtos
      ensures Keeps("", AllCategories, p)
    {
      assert ToLower("") == "";
      assert Includes(ToLower(p.nome), "");
    }
    FilterAllPass(KeepsFn("", AllCategories), produtos);
  }

  /** Search ignores letter case: terms differing only in case show the same products. */
  lemma SearchIgnoresCase(produtos: seq<Produto>, term1: string, term2: string, selectedCategory: string)
    requires SameUpToCase(term1, term2)
    ensures FilteredProdutos(produtos, term1, selectedCategory) == FilteredProdutos(produtos, term2, selectedCategory)
  {
    SameUpToCaseLowersAlike(term1, term2);
    FilterCongruent(KeepsFn(term1, selectedCategory), KeepsFn(term2, selectedCategory), produtos);
  }

  /** Lower-casing the term before searching changes nothing: the search already
      compares lower-cased text. */
  lemma LoweredTermSearchesAlike(produtos: seq<Produto>, searchTerm: string, selectedCategory: string)
    ensures FilteredProdutos(produtos, ToLower(searchTerm), selectedCategory) == FilteredProdutos(produtos, searchTerm, selectedCategory)
  {
    ToLowerIdempotent(searchTerm);
    FilterCongruent(KeepsFn(ToLower(searchTerm), selectedCategory), KeepsFn(searchTerm, selectedCategory), produtos);
  }

  /** Choosing a category narrows the "all" result for the same search, keeping its order. */
  lemma CategoryNarrowsAll(produtos: seq<Produto>, searchTerm: string, selectedCategory: string)
    ensures IsSubseq(FilteredProdutos(produtos, searchTerm, selectedCategory), FilteredProdutos(produtos, searchTerm, AllCategories))
    ensures |FilteredProdutos(produtos, searchTerm, selectedCategory)| <= |FilteredProdutos(produtos, searchTerm, AllCategories)|
  {
    FilterWeakerIsSubseq(KeepsFn(searchTerm, selectedCategory), KeepsFn(searchTerm, AllCategories), produtos);
  }

  /** Unlike the search, the category selector is case-sensitive: a product whose
      category differs from the selection only in case is found by searching for the
      selection but hidden by selecting it. */
  lemma CategoryIsCaseSensitive(p: Produto, selectedCategory: string)
    requires selectedCategory != AllCategories && p.categoria != selectedCategory
    requires SameUpToCase(p.categoria, selectedCategory)
    ensures FilteredProdutos([p], "", selectedCategory) == []
    ensures FilteredProdutos([p], selectedCategory, AllCategories) == [p]
  {
    SameUpToCaseLowersAlike(p.categoria, selectedCategory);
    assert p.categoria <= p.categoria;
    assert Includes(ToLower(p.categoria), ToLower(selectedCategory));
    assert Keeps(selectedCategory, AllCategories, p);
  }
}
