/** `post_transaction` (app/main.py): validate a movement, hand it to the
    `CreateTransaction` stored procedure, and turn the procedure's answer
    into the response. The procedure itself is a parameter: a transformer of
    an opaque store state `S` that answers each call with a reply. */
module Submission {
  import opened Wrappers
  import opened Validation

  /** The HTTP status of every failure of this handler. */
  const Unprocessable := 422

  /** The request body: `valor`, `tipo` and the nullable `descricao`. */
  datatype TransactionRequest = TransactionRequest(valor: real, tipo: string, descricao: Option<string>)

  /** The arguments of `CreateTransaction`, in call order. */
  datatype ProcedureCall = ProcedureCall(accountId: int, value: int, description: string, tipo: string)

  /** What the call produced: the first result row, whose columns may be
      NULL, no row at all, or an exception raised by the database driver. */
  datatype ProcedureReply = Row(columns: seq<Option<int>>) | NoRow | Raised

  /** Why a submission failed. */
  datatype Failure = Rejected(check: Invalid) | StoreFailed

  /** The handler's answer: `{limite, saldo}`, each passed on as read (a NULL
      column becomes `null`), or an HTTP error. */
  datatype Response = Created(limite: Option<int>, saldo: Option<int>) | HttpError(status: int, cause: Failure)

  /** The three checks in the handler's order (description, value, type);
      the first that fails is reported, and on success the procedure call is
      built from the truncated value and the request's own strings. */
  function Validate(id: int, req: TransactionRequest): (r: Result<ProcedureCall, Invalid>)
    ensures r.Ok? <==> DescriptionAccepted(req.descricao) && ValidateValue(req.valor).Ok? && TypeAccepted(req.tipo)
    ensures r == Err(BadDescription) <==> !DescriptionAccepted(req.descricao)
    ensures r == Err(BadValue) <==> DescriptionAccepted(req.descricao) && ValidateValue(req.valor).Err?
    ensures r == Err(BadType) <==>
              DescriptionAccepted(req.descricao) && ValidateValue(req.valor).Ok? && !TypeAccepted(req.tipo)
    ensures r.Ok? ==> r.value == ProcedureCall(id, Trunc(req.valor), req.descricao.value, req.tipo)
  {
    if !DescriptionAccepted(req.descricao) then Err(BadDescription)
    else
      match ValidateValue(req.valor)
      case Err(e) => Err(e)
      case Ok(value) =>
        if !TypeAccepted(req.tipo) then Err(BadType)
        else Ok(ProcedureCall(id, value, req.descricao.value, req.tipo))
  }

  /** Reading the reply: `response[0]` is the limit and `response[1]` the
      balance. A raised exception, a missing row (indexing `None`) and a row
      too short to index all land in the same `except` and become 422. */
  function InterpretReply(reply: ProcedureReply): (r: Response)
    ensures r.Created? <==> reply.Row? && |reply.columns| >= 2
    ensures r.Created? ==> r.limite == reply.columns[0] && r.saldo == reply.columns[1]
    ensures r.HttpError? ==> r == HttpError(Unprocessable, StoreFailed)
  {
    match reply
    case Row(columns) =>
      if |columns| >= 2 then Created(columns[0], columns[1])
      else HttpError(Unprocessable, StoreFailed)
    case NoRow => HttpError(Unprocessable, StoreFailed)
    case Raised => HttpError(Unprocessable, StoreFailed)
  }

  /** The whole handler, as a step from store state `store` to the state
      after the request. */
  function Submit<S>(store: S, proc: (S, ProcedureCall) -> (S, ProcedureReply), id: int, req: TransactionRequest)
    : (out: (S, Response))
    ensures out.1.HttpError? ==> out.1.status == Unprocessable
    ensures Validate(id, req).Err? ==>
              out.0 == store && out.1 == HttpError(Unprocessable, Rejected(Validate(id, req).error))
    ensures Validate(id, req).Ok? ==> out.0 == proc(store, Validate(id, req).value).0
    ensures Validate(id, req).Ok? ==>
              var reply := proc(store, Validate(id, req).value).1;
              if reply.Row? && |reply.columns| >= 2
              then out.1 == Created(reply.columns[0], reply.columns[1])
              else out.1 == HttpError(Unprocessable, StoreFailed)
    ensures out.1.Created? ==>
              && Validate(id, req).Ok?
              && proc(store, Validate(id, req).value).1.Row?
              && |proc(store, Validate(id, req).value).1.columns| >= 2
              && out.1.limite == proc(store, Validate(id, req).value).1.columns[0]
              && out.1.saldo == proc(store, Validate(id, req).value).1.columns[1]
  {
    match Validate(id, req)
    case Err(check) => (store, HttpError(Unprocessable, Rejected(check)))
    case Ok(call) =>
      var (after, reply) := proc(store, call);
      (after, InterpretReply(reply))
  }

  /** A request that fails validation gets the same answer and leaves the
      store alone whatever the stored procedure would have done. */
  lemma RejectedIndependentOfStore<S>(store: S, proc1: (S, ProcedureCall) -> (S, ProcedureReply),
                                      proc2: (S, ProcedureCall) -> (S, ProcedureReply),
                                      id: int, req: TransactionRequest)
    requires Validate(id, req).Err?
    ensures Submit(store, proc1, id, req) == Submit(store, proc2, id, req)
    ensures Submit(store, proc1, id, req).0 == store
  {
  }

  /** The scenarios of the boundary cases: an empty description, a fractional
      value and an unknown type are rejected with 422 before the store is
      reached; a whole value such as 10.0 reaches it as 10. */
  lemma SubmitScenarios<S>(store: S, proc: (S, ProcedureCall) -> (S, ProcedureReply))
    ensures Submit(store, proc, 1, TransactionRequest(500.0, "d", Some(""))) ==
            (store, HttpError(422, Rejected(BadDescription)))
    ensures Submit(store, proc, 1, TransactionRequest(10.5, "d", Some("compra"))) ==
            (store, HttpError(422, Rejected(BadValue)))
    ensures Submit(store, proc, 1, TransactionRequest(10.0, "x", Some("compra"))) ==
            (store, HttpError(422, Rejected(BadType)))
    ensures Validate(1, TransactionRequest(10.0, "c", Some("deposito"))) ==
            Ok(ProcedureCall(1, 10, "deposito", "c"))
  {
  }
}
