# Ledger request handlers: a verified model

This project models the decision logic of the account ledger's HTTP
handlers in `app/main.py`. The database does the real work: it applies each
movement under the overdraft limit in the stored procedure
`CreateTransaction`, and it answers the statement query. What the handlers
themselves decide is modelled here:

- **Submitting a movement** (`post_transaction`). The handler checks the
  description (present, 1 to 10 characters), the value (`validate_value`:
  truncation toward zero, rejected only when the input lies strictly above
  its truncation) and the type code (`"c"` or `"d"`), in that order. The
  first failing check gives HTTP 422 and the store is never called. After
  that it calls the stored procedure and reads `limite` from column 0 and
  `saldo` from column 1 of the first row. Any failure there also gives 422:
  an exception, no row, or a row too short to index.
- **The overdraft predicate** `reaching_limit`. For a non-negative limit it
  is equivalent to `balance - amount < -limit`.
- **Assembling a statement** (`get_balance_and_transactions`). The handler
  folds the rows of the account/transaction LEFT OUTER JOIN into a
  statement. No rows means 404. Rows whose value column is NULL are skipped;
  the single all-NULL row of an account with no transactions is one of
  them. Every other row becomes one entry, in row order, with its stored
  type code mapped through `str.replace` (line 136). The balance and the
  limit come from the last row. A row with a value but a NULL type makes the
  handler raise an uncaught error (HTTP 500).

Modules: `Wrappers` (Option/Result), `PyStr` (Python's `str.replace`),
`Validation`, `Overdraft`, `Submission`, `Statement`. The stored procedure
is a parameter of `Submission.Submit`. It is a function from a store state
of any type, plus the call arguments, to a new state and a reply. So the
properties hold for every possible procedure. The clock used for
`data_extrato` is the parameter `now` of `Statement.AssembleStatement`.

Facts about the code that a reader might not expect:
- Every failure of the stored procedure gives the same 422. An unknown
  account and a refused movement are not told apart.
- `validate_value` rejects only non-negative fractional inputs. A negative
  fractional value such as -10.5 passes as -10. There is no positivity
  check, so zero and negative whole values pass too.
- The type stays a string code (`"c"`/`"d"`) all the way to the store. The
  `TransactionType` enumeration (lines 44-46) only names the codes; the
  model relates the two through `Validation.ParseType`.
- The handler passes on `response[0]` and `response[1]` whatever they hold,
  so a reply row with NULL columns gives a success with `null` fields.

## Model

| member | source | states |
|---|---|---|
| Validation.ParseType | app/main.py:44-46 | a code decodes to the enumeration member whose code it is, and to nothing when no member has that code |
| Validation.ParseCode | app/main.py:44-46 | encoding a member as its code and decoding the code gives the member back |
| Validation.DescriptionAccepted | app/main.py:85-87 | a description is accepted iff it is present and its length is between 1 and 10 |
| Validation.Trunc | app/main.py:56 | `int()` on a number truncates toward zero: the result is within 1 of the input, on the zero side |
| Validation.ValidateValue | app/main.py:55-60 | rejected iff the input is non-negative and not whole; otherwise the result is the truncation toward zero, so whole inputs come back unchanged and negative fractional inputs pass |
| Validation.TypeAccepted | app/main.py:91-93 | a type code is accepted iff it is exactly "c" or "d", that is iff it is the code of a `TransactionType` member |
| Validation.ValidationBoundaries | app/main.py:55-93 | descriptions of length 0 and 11 and a missing description are rejected and lengths 1 and 10 accepted; 10.0 gives 10, 10.5 and 0.5 are rejected, -10.5 gives -10; "x", "" and "credit" are rejected |
| Overdraft.ReachingLimit | app/main.py:62-65 | for a non-negative limit the predicate holds iff `balance - amount < -limit`, so a result above the limit never triggers it; for a negative limit it holds iff `balance - amount <= limit` |
| Overdraft.Abs | app/main.py:65 | Python's `abs` returns whichever of x and -x is not smaller than the other |
| Overdraft.ReachingLimitScenarios | app/main.py:62-65 | with limit 1000: debiting 500 from 0 or from -500 and 100 from 5000 stay within the limit; debiting 600 from -500 reaches it |
| Submission.Validate | app/main.py:85-93 | the call is built iff all three checks pass, from the truncated value and the request's own description and code; otherwise the first failing check in the order description, value, type is reported |
| Submission.InterpretReply | app/main.py:95-103 | success iff the reply is a row with at least two columns, and then limite is column 0 and saldo column 1, NULL or not; an exception, a missing row or a short row give 422 |
| Submission.Submit | app/main.py:79-103 | every failure is 422; a rejected request leaves the store state unchanged and reports the failed check; a valid request's resulting state is the procedure's, and it succeeds exactly when the procedure's reply to the validated call is a row of at least two columns, with limite and saldo taken from columns 0 and 1, and otherwise fails as a store failure |
| Submission.RejectedIndependentOfStore | app/main.py:85-93 | for a rejected request, the answer and the resulting state are the same whatever the stored procedure does, and the state is the one before the call |
| Submission.SubmitScenarios | app/main.py:85-96 | an empty description, the value 10.5 and the type "x" are each rejected with 422 and the store left as it was; a valid request with value 10.0 calls the procedure with 10 |
| PyStr.Replace | app/main.py:136 | Python's `str.replace` leaves a string in which the pattern does not occur unchanged |
| PyStr.ContainsFromTail | app/main.py:136 | an occurrence of a pattern in a suffix of a string is an occurrence in the string |
| PyStr.ReplaceWhole | app/main.py:136 | the pattern itself is replaced by exactly the replacement |
| Statement.StoredTypeCode | app/main.py:136 | the type-code mapping returns any stored code without "debit" in it unchanged, and maps "debit" to "d" |
| Statement.StoredTypeCodes | app/main.py:136 | the mapping is the identity on "c" and "d", maps "debit" to "d" and leaves "credit" unchanged |
| Statement.ToResponse | app/main.py:133-139 | an entry carries its row's value, description and timestamp unchanged, and its type code unchanged when the code has no "debit" in it |
| Statement.Movements | app/main.py:124-140 | the entries are never more than the rows (so at most 10 under the query's LIMIT 10), and rows none of which has a transaction give no entries |
| Statement.MovementIndices | app/main.py:131-132 | the positions selected are strictly increasing, each holds a row with a non-NULL value, and every such row is selected |
| Statement.MovementsSelectRows | app/main.py:124-140 | entry k of the statement is built from the k-th row with a non-NULL value: exactly those rows, in row order |
| Statement.NewestFirstPreserved | app/main.py:111-140 | if the rows come newest first, as the query orders them, the entries come newest first too |
| Statement.AssembleStatement | app/main.py:119-142 | no rows give not-found (404); a row with a value but no type makes the handler fail; otherwise the statement holds the last row's balance and limit, the given time, and exactly the reference entries, never more entries than rows |
| Statement.StatementScenario | app/main.py:124-140 | a debit of 500 followed by a credit of 500, read newest first, gives the credit entry then the debit entry with codes "c" and "d" |
| Statement.NoTransactionsEmptyList | app/main.py:131-132 | the single all-NULL row of an account without transactions gives an empty entry list, not an error |

## Left out

- The FastAPI application, its routes, `get_accounts` and the request-body parsing done by the framework are HTTP plumbing (lines 36, 38-42, 68-77). The framework may reject some bodies before `post_transaction` runs, for example a NULL `tipo` or `valor`, or a fractional value for the `int`-typed `valor` field. The model starts at the handler body.
- The connection pool, its lifecycle and the connection string (lines 10-33) are I/O and configuration. Taking a connection before validation is not modelled.
- The SQL text and the stored procedure `CreateTransaction` (lines 96, 111-118) are left out. The procedure's source is not available, so its atomic limit check, its write and its locking are not modelled. It is a parameter instead: any transformer of a store state whose reply is a row of nullable integer columns, no row, or an exception. The statement query's join, ordering and `LIMIT 10` are assumptions about the input rows, not modelled behaviour.
- Submission.InterpretReply: the reply's columns are nullable integers. Columns of another SQL type are not modelled, because the procedure's result type is not available.
- Concurrency and per-account linearizability belong to the database; no code here implements them.
- `datetime.now()` becomes the parameter `now`. The `print` calls and the text of the HTTP error details are not modelled.
- Validation.ValidateValue: the input is an exact real, not an IEEE double. Float rounding, NaN and infinities are not modelled.
- Statement.AssembleStatement: timestamps are opaque integers, and the value, limit and balance columns are unbounded integers. The database's column widths are not modelled.
- `reaching_limit` is defined in the source but never called. It is modelled on its own.
