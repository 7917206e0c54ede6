/** Values shared by the ledger: constants, errors, requests, accounts and movements (main.go:22-74). */
module Types {

  /** A byte of a Go string; Go's `len` on a string counts these. */
  newtype byte = b: int | 0 <= b < 256

  /** Longest accepted description, in bytes (main.go:63). */
  const MAX_DESCRICAO_LEN: nat := 10
  /** Number of movements a statement shows (main.go:64). */
  const MAX_TRANSACTIONS: nat := 10

  /** The two recognised movement kinds. */
  const DEBIT: string := "d"
  const CREDIT: string := "c"

  /** A step of the store's unit of work that can fail on its own (connection, SQL or commit errors). */
  datatype Stage = Begin | Query | Insert | Update | Commit

  /** Which store step, if any, fails during one call; the store is not part of the model, so this is an input. */
  datatype Fault = NoFault | FailAt(stage: Stage) {
    predicate FailsAt(s: Stage) {
      FailAt? && stage == s
    }
  }

  /** The source's error values (main.go:68-74) plus the wrapped store errors. */
  datatype Error =
    | LimitExceeded           // ErrLimiteExcedido
    | InvalidClient           // ErrClienteInvalido
    | InvalidAmount           // ErrValorInvalido
    | InvalidKind             // ErrTipoInvalido
    | InvalidDescription      // ErrDescricaoInvalida
    | StoreFailure(stage: Stage)

  datatype Result<T> = Ok(value: T) | Err(error: Error)

  datatype Option<T> = None | Some(value: T)

  /** Body of a "submit movement" request (main.go:40-44). */
  datatype TransactionRequest = TransactionRequest(valor: int, tipo: string, descricao: seq<byte>)

  /** Answer to an accepted movement (main.go:46-49). */
  datatype TransactionResponse = TransactionResponse(limite: int, saldo: int)

  /** A row of the `clientes` table. */
  datatype Account = Account(limite: int, saldo: int)

  /** A row of the `transacoes` table; its position in the log stands for `realizada_em`. */
  datatype Movement = Movement(valor: int, tipo: string, descricao: seq<byte>, clienteId: nat)

  /** A movement as a statement shows it (main.go:33-38); `realizadaEm` is the log position. */
  datatype Transacao = Transacao(valor: int, tipo: string, descricao: seq<byte>, realizadaEm: nat)

  /** Balance part of a statement (main.go:27-31), without the wall-clock `data_extrato`. */
  datatype Saldo = Saldo(total: int, limite: int)

  /** A statement (main.go:22-25). */
  datatype Statement = Statement(saldo: Saldo, ultimasTransacoes: seq<Transacao>)
}
