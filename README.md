# Quantika views: list computations in Dafny

Quantika is a browser dashboard for a chemical-products warehouse. Its views
receive fixed lists of products (`Produto`) and stock movements (`Movimentacao`)
and derive everything they show from those lists on the client. This project
models those derivations as pure Dafny functions over sequences and proves what
the views promise about them:

- the dashboard's four counters (total, low or critical stock, expiring within
  30 days, approved) and its list of products needing attention;
- the product list's case-insensitive search, exact category selector, and the
  deduplicated category choices;
- the movements view's join of each movement to its product, the entry/exit
  filter, its counters, and the fallback heading, unit and sign of each row;
- the quality view's status filter, its three counters and the "Analisar" action.

Files: `records.dfy` (the records), `sequences.dfy` (filter, subsequence,
counting, first occurrence, insertion-ordered deduplication), `text.dfy`
(lower-casing, substring search, decimal rendering and its inverse), and one
module per view: `dashboard.dfy`, `produtos_list.dfy`, `movimentacoes_list.dfy`,
`qualidade_control.dfy`.

Modelling choices:

- Every `xs.filter(p)` is `Sequences.Filter(p, xs)`; every `xs.filter(p).length`
  is `|Filter(p, xs)|`, proved equal to the number of positions of `xs` whose
  element satisfies `p`.
- A filter's result is characterised completely: it is a subsequence of the
  input (order kept), and every element occurs in it exactly as often as in the
  input if it passes and not at all otherwise.
- Dates are what `new Date(text)` yields: `Instant(ms)` or `InvalidDate`. An
  invalid date compares false with everything, so it never counts as expiring.
  "Now" is a parameter in milliseconds. The cutoff is `now + 30 * 24 * 60 * 60 * 1000`.
- Status, quality and movement type are strings, as in the code. Values other
  than the documented ones are simply not counted.
- One `Produto` datatype carries every product field, though each view reads
  only some of them.

## Model

| member | source | states |
|---|---|---|
| `Dashboard.ComputeStats` | components/Dashboard.tsx:56-64 | total is the list length; each other counter is the number of positions whose product is low/critical, expires by now + 30 days, or is approved; each counter is at most the total |
| `Dashboard.Criticos` | components/Dashboard.tsx:66-68 | a product is listed iff its status is `critico` or `baixo` or its quality is `pendente`; multiplicities match the input; order is kept (subsequence) |
| `Dashboard.ThirtyDaysIsMs` | components/Dashboard.tsx:57 | the 30-day window is 2,592,000,000 ms |
| `Dashboard.LowStockWithinCriticos` | components/Dashboard.tsx:61-67 | the low-stock products form a subsequence of the critical list, so the low-stock counter is at most its length |
| `Dashboard.ExpiredCountsAsExpiring` | components/Dashboard.tsx:56-62 | every position whose product has already expired at `now` is among the positions counted as expiring soon; the expired products form a subsequence of the expiring ones |
| `Dashboard.EmptyListMatchesInitialState` | components/Dashboard.tsx:33-68 | an empty product list gives the all-zero initial counters and an empty critical list |
| `Dashboard.FourProductScenario` | components/Dashboard.tsx:59-68 | statuses normal/baixo/critico/baixo with qualities aprovado/pendente/aprovado/reprovado give 3 low-stock, 2 approved, and all but the first product critical |
| `Sequences.FilterLengthIsCount` | components/Dashboard.tsx:61-63 | `filter(p).length` equals the number of positions whose element satisfies `p` |
| `ProdutosList.FilteredProdutos` | components/ProdutosList.tsx:60-68 | a product is shown iff the lower-cased term occurs in its lower-cased name, category or supplier AND the selector is `all` or equals its category; multiplicities match; order is kept |
| `Text.IncludesIffOccurs` | components/ProdutosList.tsx:61-63 | `includes` holds iff the needle occurs at some position of the haystack (so the empty term matches everything) |
| `ProdutosList.InitialFilterShowsAll` | components/ProdutosList.tsx:39-68 | with the initial empty search and category `all`, the whole list is shown unchanged |
| `ProdutosList.SearchIgnoresCase` | components/ProdutosList.tsx:61-63 | two search terms that differ only in letter case show the same products |
| `ProdutosList.LoweredTermSearchesAlike` | components/ProdutosList.tsx:61-63 | searching for the lower-cased term shows the same products as searching for the term itself |
| `ProdutosList.CategoryNarrowsAll` | components/ProdutosList.tsx:65-67 | the result for a specific category is a subsequence of the result for `all` with the same search |
| `ProdutosList.CategoryIsCaseSensitive` | components/ProdutosList.tsx:61-65 | a category differing from the selection only in case is hidden by selecting it, yet found by searching for it |
| `ProdutosList.Categories` | components/ProdutosList.tsx:70 | no duplicates; exactly the categories of the products; listed in order of each category's first product |
| `Sequences.DistinctInFirstOccurrenceOrder` | components/ProdutosList.tsx:70 | insertion-ordered deduplication lists elements in order of their first occurrence |
| `MovimentacoesList.FindProduto` | components/MovimentacoesList.tsx:63 | absent iff no product has the id; otherwise the product at the first position with that id |
| `MovimentacoesList.FirstMatchIsUnique` | components/MovimentacoesList.tsx:63 | the first-match description determines the found product uniquely |
| `MovimentacoesList.FirstMatchWithUniqueIds` | components/MovimentacoesList.tsx:63 | when product ids are unique, the found product is exactly the product with the movement's id |
| `MovimentacoesList.Join` | components/MovimentacoesList.tsx:61-64 | same length and order; each movement kept unchanged; each paired with the first product carrying its `produtoId`, or nothing |
| `MovimentacoesList.DisplayName` | components/MovimentacoesList.tsx:192 | never empty; the product's name when present and non-empty; otherwise `Produto ID ` followed by `IntToDecimal(produtoId)` |
| `Text.IntToDecimal` | components/MovimentacoesList.tsx:192 | the result is an integer numeral (optional `-`, at least one digit, no leading zero, no `-0`) whose value is `n` |
| `Text.CanonicalNumeralIsUnique` | components/MovimentacoesList.tsx:192 | two integer numerals with the same value are the same string, so `IntToDecimal`'s contract determines its output |
| `MovimentacoesList.FallbackLabelIdentifiesProduct` | components/MovimentacoesList.tsx:192 | two fallback headings are equal only for the same `produtoId` |
| `Text.IntToDecimalInjective` | components/MovimentacoesList.tsx:192 | different integers render as different decimal strings (via the parse round trip) |
| `MovimentacoesList.DisplayUnit` | components/MovimentacoesList.tsx:200 | never empty; the product's unit when present and non-empty, otherwise `un` |
| `MovimentacoesList.DanglingReferenceExample` | components/MovimentacoesList.tsx:192-226 | an exit for product 99 with no product 99 loaded shows `Produto ID 99`, sign `-` and unit `un` |
| `MovimentacoesList.Sign` | components/MovimentacoesList.tsx:223 | `+` exactly for `entrada`, `-` for every other type |
| `MovimentacoesList.PlusRowsAreEntradas` | components/MovimentacoesList.tsx:223 | the rows drawn with `+` are exactly the entries, as many as the entry counter |
| `MovimentacoesList.FilteredMovimentacoes` | components/MovimentacoesList.tsx:75-78 | `all` returns the list unchanged; any other value keeps exactly the movements of that type, with their multiplicities, in order |
| `MovimentacoesList.ComputeStats` | components/MovimentacoesList.tsx:96-100 | total is the list length; entries and exits are the numbers of positions of each type; entries + exits is at most the total |
| `MovimentacoesList.EntradasPlusSaidasIsTotal` | components/MovimentacoesList.tsx:96-100 | entries + exits equals the total when every type is `entrada` or `saida` |
| `MovimentacoesList.FilterAgreesWithStats` | components/MovimentacoesList.tsx:75-100 | selecting `entrada`, `saida` or `all` shows as many rows as the matching counter |
| `QualidadeControl.FilteredProdutos` | components/QualidadeControl.tsx:48-51 | `all` returns the list unchanged; any other value keeps exactly the products with that quality, with their multiplicities, in order |
| `QualidadeControl.FilterIdempotent` | components/QualidadeControl.tsx:48-51 | filtering a filtered list with the same value changes nothing |
| `QualidadeControl.ComputeStats` | components/QualidadeControl.tsx:83-87 | each counter is the number of positions whose product is approved, pending or rejected |
| `QualidadeControl.FilterAgreesWithStats` | components/QualidadeControl.tsx:48-87 | selecting `aprovado`, `pendente` or `reprovado` shows as many products as the matching counter |
| `QualidadeControl.StatsAccountForProducts` | components/QualidadeControl.tsx:83-87 | the three counters sum to at most the number of products, and to exactly that number when every quality is one of the three |
| `QualidadeControl.AnalisarOnlyOnPending` | components/QualidadeControl.tsx:207 | the action is offered iff the quality is `pendente`; under `all` or `pendente` it appears as often as the pending counter, under any other selection never |

## Left out

- Fetching and React state (`fetch`, `Promise.all`, `useEffect`, `useState`
  setters, the catch-and-log path): I/O and framework lifecycle. The model's
  functions take the fetched lists as parameters.
- Parsing of date strings (`new Date(text)`) is not modelled: products carry the
  parsed `Date` directly, and the current instant is a parameter.
- Rendering: JSX markup, badges, icons, CSS classes, `toLocaleDateString('pt-BR')`
  and the `Intl.NumberFormat` BRL price formatting; console logging.
- `Text.LowerChar`: lowers only ASCII capitals and the Latin-1 capitals
  U+00C0 to U+00DE, because full Unicode `toLowerCase` is locale and Unicode
  table machinery. Characters outside that range are left unchanged, as are
  the few capitals whose lower-case form has a different length.
- `Text.IntToDecimal`: renders integers only, because identifiers are integers in
  the data. JavaScript's exponent notation for very large magnitudes and its
  rendering of fractions are not modelled.
- `Dashboard.ComputeStats`: the JavaScript date range limit of ±8.64e15 ms is not
  modelled. Instants and "now" are unbounded integers.
- Navigation (components/Sidebar.tsx, app/page.tsx): a menu flag and a tab switch
  with no computation.
- The mock endpoints (app/api/movimentacoes/route.ts, app/api/usuarios/route.ts)
  only return constant arrays. Users are never computed with, so no `User` record
  is modelled.
- The model follows the code: status, quality and type are free strings rather
  than enumerations; an unparseable expiry date is never counted as expiring;
  the join takes the first product with a matching id, and product ids are not
  assumed unique.
