/** Business validation of a movement request, done before the store is touched (main.go:372-386). */
module Validation {
  import opened Types

  predicate IsKind(tipo: string) {
    tipo == DEBIT || tipo == CREDIT
  }

  /** What a request accepted by validation looks like, stated independently of the order of the checks. */
  predicate WellFormed(t: TransactionRequest) {
    t.valor > 0 && IsKind(t.tipo) && 0 < |t.descricao| <= MAX_DESCRICAO_LEN
  }

  /** The first failed check, in the source's order: amount, then kind, then description. */
  function Validate(t: TransactionRequest): (r: Option<Error>)
    ensures r.None? <==> WellFormed(t)
    ensures r == Some(InvalidAmount) <==> t.valor <= 0
    ensures r == Some(InvalidKind) <==> t.valor > 0 && !IsKind(t.tipo)
    ensures r == Some(InvalidDescription) <==>
              t.valor > 0 && IsKind(t.tipo) && (|t.descricao| == 0 || |t.descricao| > MAX_DESCRICAO_LEN)
  {
    if t.valor <= 0 then Some(InvalidAmount)
    else if t.tipo != DEBIT && t.tipo != CREDIT then Some(InvalidKind)
    else if t.descricao == [] || |t.descricao| > MAX_DESCRICAO_LEN then Some(InvalidDescription)
    else None
  }
}
