/**
 * The movement query of a statement (main.go:296-299):
 *   movements of one account, newest first, at most `limit` of them.
 * A movement's position in the log stands for its `realizada_em` timestamp, so "newest" is
 * "latest appended".
 */
module Statements {
  import opened Types

  /** The row the query returns for log position `p`. */
  function RowAt(log: seq<Movement>, p: nat): (row: Transacao)
    requires p < |log|
  {
    Transacao(log[p].valor, log[p].tipo, log[p].descricao, p)
  }

  /** The rows among the first `n` log entries that belong to `clienteId`, newest first, at most `limit`. */
  function RecentMovements(log: seq<Movement>, n: nat, clienteId: nat, limit: nat): (rows: seq<Transacao>)
    requires n <= |log|
    ensures |rows| <= limit
    ensures forall k :: 0 <= k < |rows| ==>
              rows[k].realizadaEm < n && log[rows[k].realizadaEm].clienteId == clienteId &&
              rows[k] == RowAt(log, rows[k].realizadaEm)
    ensures forall j, k :: 0 <= j < k < |rows| ==> rows[j].realizadaEm > rows[k].realizadaEm
    decreases n
  {
    if n == 0 || limit == 0 then []
    else if log[n - 1].clienteId == clienteId then
      [RowAt(log, n - 1)] + RecentMovements(log, n - 1, clienteId, limit - 1)
    else
      RecentMovements(log, n - 1, clienteId, limit)
  }

  /**
   * Nothing newer is skipped: every movement of the account among the first `n` entries is either
   * shown, or the list is full and every shown movement is newer than it.
   */
  lemma {:induction false} RecentMovementsComplete(log: seq<Movement>, n: nat, clienteId: nat, limit: nat, q: nat)
    requires n <= |log| && q < n && log[q].clienteId == clienteId
    ensures var rows := RecentMovements(log, n, clienteId, limit);
      (exists k :: 0 <= k < |rows| && rows[k].realizadaEm == q) ||
      (|rows| == limit && forall k :: 0 <= k < |rows| ==> q < rows[k].realizadaEm)
    decreases n
  {
    var rows := RecentMovements(log, n, clienteId, limit);
    if limit == 0 {
      assert rows == [];
    } else if q == n - 1 {
      assert rows[0].realizadaEm == q;
    } else if log[n - 1].clienteId == clienteId {
      var rest := RecentMovements(log, n - 1, clienteId, limit - 1);
      assert rows == [RowAt(log, n - 1)] + rest;
      RecentMovementsComplete(log, n - 1, clienteId, limit - 1, q);
      if k :| 0 <= k < |rest| && rest[k].realizadaEm == q {
        assert rows[k + 1].realizadaEm == q;
      } else {
        forall k | 0 <= k < |rows| ensures q < rows[k].realizadaEm {
          if k > 0 {
            assert rows[k] == rest[k - 1];
          }
        }
      }
    } else {
      RecentMovementsComplete(log, n - 1, clienteId, limit, q);
    }
  }

  /** The list holds all of the account's movements, or `limit` of them when there are more. */
  lemma {:induction false} RecentMovementsLength(log: seq<Movement>, n: nat, clienteId: nat, limit: nat)
    requires n <= |log|
    ensures |RecentMovements(log, n, clienteId, limit)| ==
              if CountOf(log, n, clienteId) <= limit then CountOf(log, n, clienteId) else limit
    decreases n
  {
    if n > 0 && limit > 0 {
      if log[n - 1].clienteId == clienteId {
        RecentMovementsLength(log, n - 1, clienteId, limit - 1);
      } else {
        RecentMovementsLength(log, n - 1, clienteId, limit);
      }
    }
  }

  /** The number of movements of `clienteId` among the first `n` log entries. */
  function CountOf(log: seq<Movement>, n: nat, clienteId: nat): (count: nat)
    requires n <= |log|
    decreases n
  {
    if n == 0 then 0
    else CountOf(log, n - 1, clienteId) + (if log[n - 1].clienteId == clienteId then 1 else 0)
  }
}
