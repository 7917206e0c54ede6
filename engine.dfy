/**
 * The ledger as the handlers drive it: two tables updated in place, one call at a time.
 * `SaveTransaction` is salvarTransacao (main.go:195-259), `CreateTransaction` the business part of
 * criarTransacao (main.go:372-398), `GetStatement` the reads of criarExtrato (main.go:281-338).
 */
module Engine {
  import opened Types
  import opened Validation
  import opened Store
  import opened Statements

  /** The five pre-provisioned accounts of the schema script (main.go:146-156). */
  function SeedAccounts(): (m: map<nat, Account>)
    ensures m.Keys == {1, 2, 3, 4, 5}
    ensures WithinLimits(Tables(m, []))
  {
    map[1 := Account(100000, 0), 2 := Account(80000, 0), 3 := Account(1000000, 0),
        4 := Account(10000000, 0), 5 := Account(500000, 0)]
  }

  class Ledger {
    /** The `clientes` table: id to (limite, saldo). */
    var accounts: map<nat, Account>
    /** The `transacoes` table in insertion order. */
    var log: seq<Movement>

    function State(): (t: Tables)
      reads this
    {
      Tables(accounts, log)
    }

    predicate Valid()
      reads this
    {
      Consistent(State())
    }

    constructor (seed: map<nat, Account>)
      ensures State() == Tables(seed, [])
    {
      accounts := seed;
      log := [];
    }

    /** Undo the unit of work: put both tables back as they were when it began. */
    method Rollback(snapshot: Tables)
      modifies this
      ensures State() == snapshot
    {
      accounts := snapshot.accounts;
      log := snapshot.log;
    }

    /**
     * Apply one movement inside a unit of work. The deferred rollback of the source fires only
     * when its `err` variable is set, which is not the case on the limit and kind errors; nothing
     * has been written by then, so those paths return without undoing anything.
     */
    method SaveTransaction(t: TransactionRequest, clienteId: nat, fault: Fault)
      returns (r: Result<TransactionResponse>)
      modifies this
      ensures Step(r, State()) == Apply(old(State()), t, clienteId, fault)
      ensures old(Valid()) && (t.tipo == CREDIT ==> t.valor >= 0) ==> Valid()
    {
      ghost var before := State();
      if fault.FailsAt(Begin) {
        return Err(StoreFailure(Begin));
      }
      var snapshot := State();

      // SELECT saldo, limite ... FOR UPDATE
      if fault.FailsAt(Query) {
        Rollback(snapshot);
        return Err(StoreFailure(Query));
      }
      if clienteId !in accounts {
        Rollback(snapshot);
        return Err(InvalidClient);
      }
      var limite := accounts[clienteId].limite;
      var saldoAtual := accounts[clienteId].saldo;

      var novoSaldo := saldoAtual;
      if t.tipo == DEBIT {
        novoSaldo := saldoAtual - t.valor;
        if novoSaldo < -limite {
          assert NewBalance(saldoAtual, limite, t) == Err(LimitExceeded);
          return Err(LimitExceeded);
        }
      } else if t.tipo == CREDIT {
        novoSaldo := saldoAtual + t.valor;
      } else {
        assert NewBalance(saldoAtual, limite, t) == Err(InvalidKind);
        return Err(InvalidKind);
      }
      assert NewBalance(saldoAtual, limite, t) == Ok(novoSaldo);

      // INSERT INTO transacoes
      if fault.FailsAt(Insert) {
        Rollback(snapshot);
        return Err(StoreFailure(Insert));
      }
      log := log + [Movement(t.valor, t.tipo, t.descricao, clienteId)];

      // UPDATE clientes SET saldo
      if fault.FailsAt(Update) {
        Rollback(snapshot);
        return Err(StoreFailure(Update));
      }
      accounts := accounts[clienteId := Account(limite, novoSaldo)];

      if fault.FailsAt(Commit) {
        Rollback(snapshot);
        return Err(StoreFailure(Commit));
      }
      r := Ok(TransactionResponse(limite, novoSaldo));
      if Consistent(before) && (t.tipo == CREDIT ==> t.valor >= 0) {
        ApplyKeepsConsistent(before, t, clienteId, fault);
      }
    }

    /** criarTransacao once the request is decoded: the business checks, then the unit of work. */
    method CreateTransaction(t: TransactionRequest, clienteId: nat, fault: Fault)
      returns (r: Result<TransactionResponse>)
      modifies this
      ensures Step(r, State()) == Handle(old(State()), t, clienteId, fault)
      ensures old(Valid()) ==> Valid()
    {
      var invalid := Validate(t);
      if invalid.Some? {
        return Err(invalid.value);
      }
      r := SaveTransaction(t, clienteId, fault);
    }

    /** The statement of one account: its balance and limit, then its newest movements. */
    method GetStatement(clienteId: nat) returns (r: Result<Statement>)
      ensures r.Err? <==> clienteId !in accounts
      ensures r.Err? ==> r.error == InvalidClient
      ensures r.Ok? ==> r.value.saldo == Saldo(accounts[clienteId].saldo, accounts[clienteId].limite)
      ensures r.Ok? ==> r.value.ultimasTransacoes == RecentMovements(log, |log|, clienteId, MAX_TRANSACTIONS)
    {
      if clienteId !in accounts {
        return Err(InvalidClient);
      }
      var saldo := Saldo(accounts[clienteId].saldo, accounts[clienteId].limite);

      // SELECT ... WHERE cliente_id = ? ORDER BY realizada_em DESC LIMIT ?
      var rows := RecentMovements(log, |log|, clienteId, MAX_TRANSACTIONS);
      var transacoes: seq<Transacao> := [];
      var i := 0;
      while i < |rows|
        invariant 0 <= i <= |rows|
        invariant transacoes == rows[..i]
      {
        transacoes := transacoes + [rows[i]];
        i := i + 1;
      }
      r := Ok(Statement(saldo, transacoes));
    }
  }

  /**
   * Example calls on one account with limit 1000 and balance 0: two debits, a credit, an unknown
   * account, an 11-byte description, then two debits of 600 in sequence; and a ledger built from
   * the pre-provisioned accounts.
   */
  method Scenarios() {
    var desc: seq<byte> := [112, 97, 103, 111];
    var ledger := new Ledger(map[1 := Account(1000, 0)]);

    var r := ledger.CreateTransaction(TransactionRequest(500, DEBIT, desc), 1, NoFault);
    assert r == Ok(TransactionResponse(1000, -500));

    r := ledger.CreateTransaction(TransactionRequest(600, DEBIT, desc), 1, NoFault);
    assert r == Err(LimitExceeded) && ledger.accounts[1].saldo == -500;

    r := ledger.CreateTransaction(TransactionRequest(700, CREDIT, desc), 1, NoFault);
    assert r == Ok(TransactionResponse(1000, 200));

    r := ledger.CreateTransaction(TransactionRequest(1, CREDIT, desc), 7, NoFault);
    assert r == Err(InvalidClient);
    var s := ledger.GetStatement(7);
    assert s == Err(InvalidClient);

    // Reading twice with nothing in between gives the same statement.
    var s1 := ledger.GetStatement(1);
    var s2 := ledger.GetStatement(1);
    assert s1 == s2 && s1.Ok? && s1.value.saldo == Saldo(200, 1000);

    var long: seq<byte> := [97, 97, 97, 97, 97, 97, 97, 97, 97, 97, 97];
    ghost var before := ledger.State();
    r := ledger.CreateTransaction(TransactionRequest(1, CREDIT, long), 1, NoFault);
    assert r == Err(InvalidDescription) && ledger.State() == before;

    // Two debits of 600 on a fresh account: applied one after the other, the second one fails.
    var other := new Ledger(map[1 := Account(1000, 0)]);
    var first := other.CreateTransaction(TransactionRequest(600, DEBIT, desc), 1, NoFault);
    var second := other.CreateTransaction(TransactionRequest(600, DEBIT, desc), 1, NoFault);
    assert first == Ok(TransactionResponse(1000, -600)) && second == Err(LimitExceeded);
    assert |other.log| == 1;

    var seeded := new Ledger(SeedAccounts());
    assert seeded.Valid();
    r := seeded.CreateTransaction(TransactionRequest(80001, DEBIT, desc), 2, NoFault);
    assert r == Err(LimitExceeded);
  }
}
