/**
 * The effect of one movement on the store, as a function of the store before it. This is the
 * specification the imperative `Engine.Ledger` methods are proved against: `Apply` is
 * salvarTransacao (main.go:195-259), `Handle` is the business part of criarTransacao
 * (main.go:372-398), and `Run` applies calls one at a time, which is what the row lock
 * (main.go:210) makes concurrent calls on one account behave like.
 */
module Store {
  import opened Types
  import opened Validation

  /** The two tables: account id to (limit, balance), and the append-only movement log. */
  datatype Tables = Tables(accounts: map<nat, Account>, log: seq<Movement>)

  /** What one call returns, and the store it leaves behind. */
  datatype Step = Step(result: Result<TransactionResponse>, after: Tables)

  /** One call of the "submit movement" endpoint, with the store failure it meets, if any. */
  datatype Call = Call(clienteId: nat, request: TransactionRequest, fault: Fault)

  /** The limit invariant: no balance is below minus its limit. */
  predicate WithinLimits(s: Tables) {
    forall id :: id in s.accounts ==> s.accounts[id].saldo >= -s.accounts[id].limite
  }

  /** The foreign key of `transacoes.cliente_id`: every movement belongs to an account. */
  predicate LogRefersToAccounts(s: Tables) {
    forall k :: 0 <= k < |s.log| ==> s.log[k].clienteId in s.accounts
  }

  predicate Consistent(s: Tables) {
    WithinLimits(s) && LogRefersToAccounts(s)
  }

  /** The candidate balance of main.go:220-232. */
  function NewBalance(saldoAtual: int, limite: int, t: TransactionRequest): (r: Result<int>)
    ensures r.Ok? && t.tipo == DEBIT ==> r.value >= -limite
    ensures r.Ok? && saldoAtual >= -limite && t.valor >= 0 ==> r.value >= -limite
    ensures r.Err? ==> r.error == (if t.tipo == DEBIT then LimitExceeded else InvalidKind)
  {
    if t.tipo == DEBIT then
      var novoSaldo := saldoAtual - t.valor;
      if novoSaldo < -limite then Err(LimitExceeded) else Ok(novoSaldo)
    else if t.tipo == CREDIT then
      Ok(saldoAtual + t.valor)
    else
      Err(InvalidKind)
  }

  /** salvarTransacao on store `s`: read the account, compute the balance, insert, update, commit. */
  function Apply(s: Tables, t: TransactionRequest, clienteId: nat, fault: Fault): (step: Step) {
    if fault.FailsAt(Begin) then Step(Err(StoreFailure(Begin)), s)
    else if fault.FailsAt(Query) then Step(Err(StoreFailure(Query)), s)
    else if clienteId !in s.accounts then Step(Err(InvalidClient), s)
    else
      var acc := s.accounts[clienteId];
      match NewBalance(acc.saldo, acc.limite, t)
      case Err(e) => Step(Err(e), s)
      case Ok(novoSaldo) =>
        if fault.FailAt? then Step(Err(StoreFailure(fault.stage)), s)
        else
          Step(Ok(TransactionResponse(acc.limite, novoSaldo)),
               Tables(s.accounts[clienteId := Account(acc.limite, novoSaldo)],
                     s.log + [Movement(t.valor, t.tipo, t.descricao, clienteId)]))
  }

  /** criarTransacao after decoding: validate first, and only then go to the store. */
  function Handle(s: Tables, t: TransactionRequest, clienteId: nat, fault: Fault): (step: Step) {
    match Validate(t)
    case Some(e) => Step(Err(e), s)
    case None => Apply(s, t, clienteId, fault)
  }

  /** The store after the calls have been handled one after another, first call first. */
  function Run(s: Tables, calls: seq<Call>): (after: Tables)
    decreases |calls|
  {
    if calls == [] then s
    else Run(Handle(s, calls[0].request, calls[0].clienteId, calls[0].fault).after, calls[1..])
  }

  /** A credit is accepted whatever the balance, and adds its amount. */
  lemma CreditAccepted(saldoAtual: int, limite: int, t: TransactionRequest)
    requires t.tipo == CREDIT
    ensures NewBalance(saldoAtual, limite, t) == Ok(saldoAtual + t.valor)
  {
  }

  /** A debit is accepted exactly when it leaves the balance at or above minus the limit. */
  lemma DebitAcceptedIff(saldoAtual: int, limite: int, t: TransactionRequest)
    requires t.tipo == DEBIT
    ensures NewBalance(saldoAtual, limite, t).Ok? <==> saldoAtual - t.valor >= -limite
    ensures NewBalance(saldoAtual, limite, t).Ok? ==> NewBalance(saldoAtual, limite, t).value == saldoAtual - t.valor
    ensures NewBalance(saldoAtual, limite, t).Err? ==> NewBalance(saldoAtual, limite, t).error == LimitExceeded
  {
  }

  /** Atomicity: a call that fails, for any reason, leaves both tables as they were. */
  lemma ApplyAtomic(s: Tables, t: TransactionRequest, clienteId: nat, fault: Fault)
    ensures Apply(s, t, clienteId, fault).result.Err? ==> Apply(s, t, clienteId, fault).after == s
  {
  }

  /** Which error a call fails with, in the order the source meets them. */
  lemma ApplyErrors(s: Tables, t: TransactionRequest, clienteId: nat, fault: Fault)
    ensures var r := Apply(s, t, clienteId, fault).result;
      && (fault.FailsAt(Begin) ==> r == Err(StoreFailure(Begin)))
      && (fault.FailsAt(Query) ==> r == Err(StoreFailure(Query)))
      && (!fault.FailsAt(Begin) && !fault.FailsAt(Query) && clienteId !in s.accounts ==> r == Err(InvalidClient))
      && (!fault.FailsAt(Begin) && !fault.FailsAt(Query) && clienteId in s.accounts && !IsKind(t.tipo)
          ==> r == Err(InvalidKind))
      && (!fault.FailsAt(Begin) && !fault.FailsAt(Query) && clienteId in s.accounts && t.tipo == DEBIT
          && s.accounts[clienteId].saldo - t.valor < -s.accounts[clienteId].limite
          ==> r == Err(LimitExceeded))
      && (fault.FailAt? && fault.stage in {Insert, Update, Commit} && clienteId in s.accounts
          && NewBalance(s.accounts[clienteId].saldo, s.accounts[clienteId].limite, t).Ok?
          ==> r == Err(StoreFailure(fault.stage)))
  {
  }

  /** When a call succeeds, and what it then writes: one movement and that account's balance, nothing else. */
  lemma ApplySucceeds(s: Tables, t: TransactionRequest, clienteId: nat, fault: Fault)
    ensures var step := Apply(s, t, clienteId, fault);
      step.result.Ok? <==>
        fault == NoFault && clienteId in s.accounts &&
        (t.tipo == CREDIT ||
         (t.tipo == DEBIT && s.accounts[clienteId].saldo - t.valor >= -s.accounts[clienteId].limite))
    ensures var step := Apply(s, t, clienteId, fault);
      step.result.Ok? ==>
        var old_ := s.accounts[clienteId];
        var novoSaldo := if t.tipo == CREDIT then old_.saldo + t.valor else old_.saldo - t.valor;
        && step.result.value == TransactionResponse(old_.limite, novoSaldo)
        && step.after.log == s.log + [Movement(t.valor, t.tipo, t.descricao, clienteId)]
        && step.after.accounts.Keys == s.accounts.Keys
        && step.after.accounts[clienteId] == Account(old_.limite, novoSaldo)
        && (forall id :: id in s.accounts && id != clienteId ==> step.after.accounts[id] == s.accounts[id])
  {
  }

  /** One call keeps the invariants, provided a credit does not carry a negative amount. */
  lemma ApplyKeepsConsistent(s: Tables, t: TransactionRequest, clienteId: nat, fault: Fault)
    requires Consistent(s)
    requires t.tipo == CREDIT ==> t.valor >= 0
    ensures Consistent(Apply(s, t, clienteId, fault).after)
  {
  }

  /** Validation runs before the store is touched: a rejected request never reaches it. */
  lemma HandleValidatesFirst(s: Tables, t: TransactionRequest, clienteId: nat, fault: Fault)
    ensures Validate(t).Some? ==> Handle(s, t, clienteId, fault) == Step(Err(Validate(t).value), s)
    ensures Validate(t).None? ==> Handle(s, t, clienteId, fault) == Apply(s, t, clienteId, fault)
  {
  }

  /** Every call through the endpoint keeps the invariants, with no condition on the request. */
  lemma HandleKeepsConsistent(s: Tables, t: TransactionRequest, clienteId: nat, fault: Fault)
    requires Consistent(s)
    ensures Consistent(Handle(s, t, clienteId, fault).after)
  {
  }

  /** The limit invariant holds after any sequence of calls applied one at a time. */
  lemma {:induction false} RunKeepsConsistent(s: Tables, calls: seq<Call>)
    requires Consistent(s)
    ensures Consistent(Run(s, calls))
    decreases |calls|
  {
    if calls != [] {
      var c := calls[0];
      HandleKeepsConsistent(s, c.request, c.clienteId, c.fault);
      RunKeepsConsistent(Handle(s, c.request, c.clienteId, c.fault).after, calls[1..]);
    }
  }

  /** The log is append-only and accounts are never created or removed, over any sequence of calls. */
  lemma {:induction false} RunAppendsOnly(s: Tables, calls: seq<Call>)
    ensures |s.log| <= |Run(s, calls).log| && Run(s, calls).log[..|s.log|] == s.log
    ensures Run(s, calls).accounts.Keys == s.accounts.Keys
    ensures forall id :: id in s.accounts ==> Run(s, calls).accounts[id].limite == s.accounts[id].limite
    decreases |calls|
  {
    if calls != [] {
      var c := calls[0];
      var next := Handle(s, c.request, c.clienteId, c.fault).after;
      ApplySucceeds(s, c.request, c.clienteId, c.fault);
      assert next.log[..|s.log|] == s.log;
      RunAppendsOnly(next, calls[1..]);
      var final := Run(s, calls);
      assert final == Run(next, calls[1..]);
      assert final.log[..|s.log|] == final.log[..|next.log|][..|s.log|];
    }
  }
}
