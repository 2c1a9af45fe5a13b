/** `get_balance_and_transactions` (app/main.py): fold the rows of the
    account/transaction LEFT OUTER JOIN into a statement. */
module Statement {
  import opened Wrappers
  import opened PyStr

  /** One row of the join: the account columns are always present; the
      transaction columns are NULL on the single row of an account that has
      no transactions. Timestamps are opaque integers. */
  datatype JoinRow = JoinRow(
    accountId: int, balance: int, accountLimit: int,
    value: Option<int>, transactionType: Option<string>,
    description: Option<string>, createdAt: Option<int>)

  /** One entry of the statement's `transacoes`. */
  datatype TransactionResponse = TransactionResponse(
    valor: int, tipo: string, descricao: Option<string>, realizadaEm: Option<int>)

  /** The statement: `total`, `data_extrato`, `limite`, `transacoes`. */
  datatype Extrato = Extrato(total: int, dataExtrato: int, limite: int, transacoes: seq<TransactionResponse>)

  /** Found, unknown account (404), or a row the loop cannot decode, which
      raises outside any handler (HTTP 500). */
  datatype StatementResult = Found(extrato: Extrato) | NotFound | Crashed

  /** The row carries a transaction: its value column is not NULL. */
  predicate HasMovement(row: JoinRow)
  {
    row.value.Some?
  }

  /** The loop can convert the row: a row with a value also has a type. */
  predicate Decodable(row: JoinRow)
  {
    row.value.Some? ==> row.transactionType.Some?
  }

  /** The type code of line 136: `c` is kept as is, anything else has every
      `debit` in it replaced by `d`. A stored code without `debit` in it,
      such as `c`, `d` or `credit`, is passed through unchanged. */
  function StoredTypeCode(typeDb: string): (r: string)
    ensures !Contains(typeDb, "debit") ==> r == typeDb
    ensures typeDb == "debit" ==> r == "d"
  {
    if typeDb == "c" then Replace(typeDb, "credit", "c") else Replace(typeDb, "debit", "d")
  }

  /** The mapping on the four codes a store may hold: the short codes are
      kept, `debit` becomes `d`, and `credit` is left unchanged. */
  lemma StoredTypeCodes()
    ensures StoredTypeCode("c") == "c"
    ensures StoredTypeCode("d") == "d"
    ensures StoredTypeCode("debit") == "d"
    ensures StoredTypeCode("credit") == "credit"
  {
  }

  /** The statement entry built from a row with a transaction: the value,
      description and timestamp are carried over, and the type code is mapped. */
  function ToResponse(row: JoinRow): (r: TransactionResponse)
    requires HasMovement(row) && Decodable(row)
    ensures r.valor == row.value.value
    ensures r.descricao == row.description && r.realizadaEm == row.createdAt
    ensures !Contains(row.transactionType.value, "debit") ==> r.tipo == row.transactionType.value
  {
    TransactionResponse(row.value.value, StoredTypeCode(row.transactionType.value), row.description, row.createdAt)
  }

  /** All rows of `rows` can be decoded. */
  predicate AllDecodable(rows: seq<JoinRow>)
  {
    forall i :: 0 <= i < |rows| ==> Decodable(rows[i])
  }

  /** Reference definition of the statement's entries: the rows with a
      transaction, converted, in row order. */
  function Movements(rows: seq<JoinRow>): (ms: seq<TransactionResponse>)
    requires AllDecodable(rows)
    ensures |ms| <= |rows|
    ensures (forall i :: 0 <= i < |rows| ==> !HasMovement(rows[i])) ==> ms == []
    decreases |rows|
  {
    if |rows| == 0 then []
    else
      var last := rows[|rows| - 1];
      Movements(rows[..|rows| - 1]) + (if HasMovement(last) then [ToResponse(last)] else [])
  }

  /** The positions of the rows with a transaction, in increasing order. */
  function MovementIndices(rows: seq<JoinRow>): (idx: seq<nat>)
    ensures forall k :: 0 <= k < |idx| ==> idx[k] < |rows| && HasMovement(rows[idx[k]])
    ensures forall k, l :: 0 <= k < l < |idx| ==> idx[k] < idx[l]
    ensures forall i :: 0 <= i < |rows| && HasMovement(rows[i]) ==> i in idx
    decreases |rows|
  {
    if |rows| == 0 then []
    else
      var n := |rows| - 1;
      MovementIndices(rows[..n]) + (if HasMovement(rows[n]) then [n] else [])
  }

  /** Dropping the last row keeps every row decodable. */
  lemma FrontDecodable(rows: seq<JoinRow>)
    requires AllDecodable(rows) && |rows| > 0
    ensures AllDecodable(rows[..|rows| - 1])
  {
  }

  /** The entries are exactly the rows with a transaction, in row order:
      entry `k` is built from row `MovementIndices(rows)[k]`. */
  lemma {:induction false} MovementsSelectRows(rows: seq<JoinRow>)
    requires AllDecodable(rows)
    ensures |Movements(rows)| == |MovementIndices(rows)|
    ensures forall k :: 0 <= k < |Movements(rows)| ==>
              MovementIndices(rows)[k] < |rows| &&
              Movements(rows)[k] == ToResponse(rows[MovementIndices(rows)[k]])
    decreases |rows|
  {
    if |rows| > 0 {
      var n := |rows| - 1;
      var front := rows[..n];
      FrontDecodable(rows);
      MovementsSelectRows(front);
      var ms', idx' := Movements(front), MovementIndices(front);
      var ms, idx := Movements(rows), MovementIndices(rows);
      assert ms == ms' + (if HasMovement(rows[n]) then [ToResponse(rows[n])] else []);
      assert idx == idx' + (if HasMovement(rows[n]) then [n] else []);
      forall k | 0 <= k < |ms|
        ensures idx[k] < |rows| && ms[k] == ToResponse(rows[idx[k]])
      {
        if k < |ms'| {
          assert ms[k] == ms'[k] && idx[k] == idx'[k];
          assert front[idx'[k]] == rows[idx'[k]];
        } else {
          assert ms[k] == ToResponse(rows[n]) && idx[k] == n;
        }
      }
    }
  }

  /** Timestamps ordered newest first, as `ORDER BY created_at DESC` leaves
      them in PostgreSQL, where NULL sorts before every value. */
  predicate NotOlder(a: Option<int>, b: Option<int>)
  {
    a.None? || (b.Some? && a.value >= b.value)
  }

  /** Rows whose transactions come newest first give entries newest first. */
  lemma NewestFirstPreserved(rows: seq<JoinRow>)
    requires AllDecodable(rows)
    requires forall i, j :: 0 <= i < j < |rows| && HasMovement(rows[i]) && HasMovement(rows[j]) ==>
               NotOlder(rows[i].createdAt, rows[j].createdAt)
    ensures forall k, l :: 0 <= k < l < |Movements(rows)| ==>
              NotOlder(Movements(rows)[k].realizadaEm, Movements(rows)[l].realizadaEm)
  {
    MovementsSelectRows(rows);
    var idx := MovementIndices(rows);
    forall k, l | 0 <= k < l < |Movements(rows)|
      ensures NotOlder(Movements(rows)[k].realizadaEm, Movements(rows)[l].realizadaEm)
    {
      assert idx[k] < idx[l];
      assert Movements(rows)[k].realizadaEm == rows[idx[k]].createdAt;
      assert Movements(rows)[l].realizadaEm == rows[idx[l]].createdAt;
    }
  }

  /** The loop of the handler. The balance and limit are those of the last
      row; rows with a NULL value are skipped; `now` stands for the clock. */
  method AssembleStatement(rows: seq<JoinRow>, now: int) returns (r: StatementResult)
    ensures r.NotFound? <==> |rows| == 0
    ensures r.Crashed? <==> |rows| > 0 && !AllDecodable(rows)
    ensures r.Found? ==>
              && AllDecodable(rows)
              && r.extrato.total == rows[|rows| - 1].balance
              && r.extrato.limite == rows[|rows| - 1].accountLimit
              && r.extrato.dataExtrato == now
              && r.extrato.transacoes == Movements(rows)
    ensures r.Found? ==> |r.extrato.transacoes| <= |rows|
  {
    if |rows| == 0 {
      return NotFound;
    }
    var transactions: seq<TransactionResponse> := [];
    var balance := 0;
    var accountLimit := 0;
    var i := 0;
    while i < |rows|
      invariant 0 <= i <= |rows|
      invariant AllDecodable(rows[..i])
      invariant transactions == Movements(rows[..i])
      invariant 0 < i ==> balance == rows[i - 1].balance && accountLimit == rows[i - 1].accountLimit
    {
      var row := rows[i];
      balance := row.balance;
      accountLimit := row.accountLimit;
      assert rows[..i + 1][..i] == rows[..i];
      if row.value.Some? {
        if row.transactionType.None? {
          assert !Decodable(rows[i]);
          return Crashed;
        }
        transactions := transactions + [ToResponse(row)];
      }
      i := i + 1;
    }
    assert rows[..i] == rows;
    return Found(Extrato(balance, now, accountLimit, transactions));
  }

  /** An account without transactions yields one all-NULL row, and the
      statement is that row's balance and limit with no entries. */
  lemma NoTransactionsEmptyList(row: JoinRow)
    requires !HasMovement(row)
    ensures AllDecodable([row])
    ensures Movements([row]) == []
  {
  }

  /** An account with limit 1000 after a debit of 500 ("compra") and then a
      credit of 500 ("deposito"): the entries list the credit first. */
  lemma StatementScenario()
    ensures
      var rows := [JoinRow(1, 0, 1000, Some(500), Some("c"), Some("deposito"), Some(2)),
                   JoinRow(1, 0, 1000, Some(500), Some("d"), Some("compra"), Some(1))];
      && AllDecodable(rows)
      && Movements(rows) == [TransactionResponse(500, "c", Some("deposito"), Some(2)),
                             TransactionResponse(500, "d", Some("compra"), Some(1))]
  {
  }
}
