/**
  The records the views receive from `/api/produtos` and `/api/movimentacoes`.
  Every view reads a subset of the same product fields; one datatype carries them all.
*/
module Records {

  datatype Option<T> = None | Some(value: T)

  /** What `new Date(text)` yields: an instant in milliseconds since the epoch, or an
      invalid date (its time value is NaN, so every `<=` comparison with it is false). */
  datatype Date = Instant(ms: int) | InvalidDate

  datatype Produto = Produto(
    id: int,
    nome: string,
    categoria: string,
    concentracao: string,
    lote: string,
    fornecedor: string,
    dataVencimento: Date,
    quantidade: int,
    unidade: string,
    estoqueMinimo: int,
    status: string,      // "normal" | "baixo" | "critico" in the data, any string in the type
    qualidade: string,   // "aprovado" | "pendente" | "reprovado" in the data, any string in the type
    ultimaAnalise: Date,
    preco: real,
    localizacao: string)

  datatype Movimentacao = Movimentacao(
    id: int,
    produtoId: int,
    tipo: string,        // "entrada" | "saida" in the data
    quantidade: int,
    data: Date,
    usuario: string,
    observacoes: string)

  predicate IsAprovado(p: Produto) { p.qualidade == "aprovado" }

  predicate IsPendente(p: Produto) { p.qualidade == "pendente" }

  predicate IsReprovado(p: Produto) { p.qualidade == "reprovado" }
}
