# Account ledger of a small debit/credit API

The service keeps, per client account, a credit limit (`limite`) and a balance (`saldo`), and an
append-only table of movements (`transacoes`). A client posts debits (`"d"`) and credits (`"c"`);
a debit may not take the balance below `-limite`. A client can also read a statement: the current
balance and limit plus its ten most recent movements.

This project models that core over an in-memory store and proves its properties:

- `Types` — constants (`maxDescricaoLen`, `maxTransactions`), the error values, the request,
  response, account, movement and statement records.
- `Validation` — the business checks of the "submit movement" handler, in the source's order:
  amount, kind, description (whose length is counted in bytes, as Go's `len` does).
- `Store` — the specification: `NewBalance` (the candidate balance), `Apply` (the unit of work of
  `salvarTransacao`), `Handle` (validation followed by `Apply`), and `Run`, which handles calls one
  after another. Lemmas: credit always accepted, debit accepted exactly when it stays at or above
  `-limite`, atomicity of every error, exactly one movement and one balance written on success,
  and the limit invariant kept across every sequence of calls.
- `Statements` — the statement's movement query as a function, with its bound (at most ten), its
  ownership (only that account's movements), its order (strictly newest first) and its
  completeness (no newer movement is skipped; exactly `min(10, count)` are shown).
- `Engine` — class `Ledger` with the two tables as fields. `SaveTransaction` changes them step by
  step (read, compute, insert, update, commit), undoing its writes through `Rollback` when a store
  step fails, and is proved equal to `Store.Apply`; `CreateTransaction` is proved equal to
  `Store.Handle`; `GetStatement` builds the movement list with a loop and is proved equal to the
  query. `Scenarios` states example calls and their expected results as assertions, which the verifier proves from these contracts.

Calls are modelled as applied one at a time. That is the behaviour the `FOR UPDATE` row lock gives
concurrent calls on one account. A movement's position in the log stands for its `realizada_em`.

Failures of the store itself (beginning the unit of work, the account query, the insert, the update,
the commit) are an input of each call, `Fault`, since the database is not part of the model. An
update or commit failure happens after the movement has been inserted, so the deferred rollback
has something to undo, and the model proves that it undoes it.

In the source, the deferred rollback runs only when the function's `err` variable is set. That
variable is still nil when the limit-exceeded and invalid-kind errors are returned (main.go:225,
main.go:231), so no rollback is issued on those paths. Nothing has been written at that point, so
the tables are unchanged either way. `SaveTransaction` follows the code: it calls no `Rollback` on
those two paths.

## Model

| member | source | states |
|---|---|---|
| `Validation.Validate` | main.go:372-386 | accepts exactly the requests with positive amount, kind `"d"` or `"c"`, and a description of 1 to 10 bytes; otherwise names the first failed check in the order amount, kind, description |
| `Store.NewBalance` | main.go:219-232 | an accepted debit never ends below `-limite`; an accepted credit of a non-negative amount keeps a balance that was within the limit; a rejection is `LimitExceeded` for a debit and `InvalidKind` for any other kind |
| `Store.CreditAccepted` | main.go:227-229 | a credit is always accepted and the new balance is the old one plus the amount |
| `Store.DebitAcceptedIff` | main.go:221-226 | a debit is accepted if and only if `saldo - valor >= -limite`, so reaching exactly `-limite` is allowed; the new balance is `saldo - valor`; otherwise the error is `LimitExceeded` |
| `Store.Apply` | main.go:195-259 | the unit of work of `salvarTransacao` on the two tables; it has no `ensures` of its own, and its contract is carried by `Store.ApplyAtomic`, `Store.ApplyErrors`, `Store.ApplySucceeds` and `Store.ApplyKeepsConsistent` |
| `Store.Handle` | main.go:372-398 | validation followed by the unit of work, as `criarTransacao` does once the request is decoded; it has no `ensures` of its own, and its contract is carried by `Store.HandleValidatesFirst` and `Store.HandleKeepsConsistent` |
| `Store.Run` | main.go:209-211 | calls handled one after another, the order the `FOR UPDATE` row lock gives calls on one account; it has no `ensures` of its own, and its contract is carried by `Store.RunKeepsConsistent` and `Store.RunAppendsOnly` |
| `Store.ApplyAtomic` | main.go:195-259 | every error result, whether a business error or a store failure, leaves both tables exactly as before |
| `Store.ApplyErrors` | main.go:197-232 | which error each failing case yields, in the source's order: store failure at begin or query, then `InvalidClient` for a missing account, then `InvalidKind` and `LimitExceeded` (which win over any failure scheduled later at insert, update or commit), then store failure at insert, update or commit |
| `Store.ApplySucceeds` | main.go:219-258 | success happens exactly when no store step fails, the account exists and the movement fits the limit; the response is `(limite, novoSaldo)`; exactly one movement `(valor, tipo, descricao, clienteId)` is appended; only that account's balance changes and its limit stays the same |
| `Store.ApplyKeepsConsistent` | main.go:220-248 | one call keeps every balance within its limit and every movement tied to an existing account, given a credit amount that is not negative |
| `Store.HandleValidatesFirst` | main.go:372-398 | a request that fails validation returns that error and the store is never reached; a valid one is exactly the unit of work |
| `Store.HandleKeepsConsistent` | main.go:372-398 | any request through the handler, valid or not, keeps the invariants |
| `Store.RunKeepsConsistent` | main.go:207-232 | after any sequence of calls applied one at a time, no balance is below minus its limit |
| `Store.RunAppendsOnly` | main.go:234-248 | over any sequence of calls, the old log is a prefix of the new one; accounts are neither created nor removed, and limits never change |
| `Statements.RecentMovements` | main.go:296-299 | the statement query returns at most `limit` rows, each one a movement of that account, copied from its log entry, in strictly decreasing `realizadaEm` (newest first) |
| `Statements.RecentMovementsComplete` | main.go:296-299 | no newer movement is skipped: each of the account's movements is either listed, or the list is full and every listed movement is newer |
| `Statements.RecentMovementsLength` | main.go:296-299 | the list holds all of the account's movements when it has at most `limit`, and exactly `limit` of them otherwise |
| `Engine.SeedAccounts` | main.go:146-156 | the five pre-provisioned accounts have ids 1 to 5 and start within their limits |
| `Engine.Ledger.constructor` | main.go:146-156 | a ledger starts with the given accounts and an empty movement log |
| `Engine.Ledger.Rollback` | main.go:201-205 | undoing a unit of work restores both tables to the snapshot taken at its start |
| `Engine.Ledger.SaveTransaction` | main.go:195-259 | the in-place update returns what `Store.Apply` returns and leaves the tables as `Store.Apply` does, so it is atomic and writes one movement and one balance; it keeps the invariants when a credit amount is not negative |
| `Engine.Ledger.CreateTransaction` | main.go:372-398 | validation and then the unit of work, equal to `Store.Handle`; it keeps the invariants for every request |
| `Engine.Ledger.GetStatement` | main.go:281-338 | an unknown account gives `InvalidClient` and a known one never does; the statement carries that account's current balance and limit and, built by the row loop, exactly the query's at most ten newest movements |

## Left out

- HTTP routing, path-id parsing, the request body size limit, JSON decoding and encoding, mapping errors to status codes, and the logging middleware (main.go:261-275, 347-370, 399-418, 420-476): transport code.
- `conectarBanco`, with its retry loop, sleeps and pool settings (main.go:76-108): connection management.
- SQL text, the `FOR UPDATE` lock and the connection pool: calls are handled one at a time, the order the lock gives; interleavings are not modelled.
- The transaction and row lock left open on the limit-exceeded and invalid-kind paths until the request context ends: this is lock lifetime, not table contents, and the sequential model has no locks.
- Clock values: the statement's `data_extrato` (main.go:282) is not modelled, and `realizada_em` is the log position. Two movements stored in the same millisecond would tie under `ORDER BY realizada_em` in the database; the model orders them strictly by insertion instead.
- Store failures of the statement read: the balance query failing with an error other than "no rows" for a known account (main.go:286-293), and the movement query, row scan, timestamp parse and row-iteration failures (main.go:300-333). These are library and I/O errors that change nothing; `Engine.Ledger.GetStatement` therefore never fails for a known account, where the source can answer with an internal error.
- The statement's two reads run as separate queries outside a transaction; the model reads a single state and does not capture a movement committed between them.
- `int64` arithmetic (main.go:41, main.go:208): amounts and balances are unbounded integers, so overflow of a very large credit is not modelled.
- `minClientID` and `maxClientID` (main.go:61-62) are declared but never used by the code, so the model has no id range check either; an unknown id fails with `InvalidClient`.
- The commented-out `criarTabelas` (main.go:110-194) is dead code; only its seed accounts are used, in `Engine.SeedAccounts`.
- Datadog tracing (main.go:423-427).
