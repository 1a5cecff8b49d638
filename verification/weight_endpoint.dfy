/** The `POST` handler of the weight endpoint: validates `userId`, `weight` and `date`, inserts one
    row into `weight_records` through the privileged store client, and answers with the row or an
    error. The store is a parameter: what it answers to the one insert it is given. */
module WeightEndpoint {
  import opened Wrappers
  import opened JsValues

  const IncompleteMessage := "Dados incompletos"
  const InternalErrorMessage := "Erro interno do servidor"

  /** The request body: text that is not JSON, or the decoded value. */
  datatype RequestBody = Malformed | Json(value: JsValue)

  /** The row handed to the store: `user_id` and `date` as received, `weight` parsed (`None` is NaN). */
  datatype WeightInsert = WeightInsert(userId: JsValue, weight: Option<real>, date: JsValue)

  /** A row as the store returns it after the insert (`.select().single()`). */
  datatype StoredRow = StoredRow(id: string, inserted: WeightInsert)

  /** What the store makes of an insert: the new row, an error object with its message, or an
      exception (a failed network call). */
  datatype StoreOutcome = Inserted(row: StoredRow) | Rejected(message: string) | Thrown

  datatype ResponseBody = ErrorBody(error: string) | DataBody(data: StoredRow)

  /** The HTTP answer, and the inserts the handler issued on the way. */
  datatype Exchange = Exchange(status: int, body: ResponseBody, inserts: seq<WeightInsert>)

  /** The three required fields are present and truthy (`userId && weight && date`). */
  predicate Complete(v: JsValue)
    requires Destructurable(v)
  {
    Truthy(Property(v, "userId")) && Truthy(Property(v, "weight")) && Truthy(Property(v, "date"))
  }

  /** The insert built from a complete body. */
  function InsertFor(v: JsValue, parseText: string -> Option<real>): (ins: WeightInsert)
    requires Destructurable(v)
    ensures ins.userId == Property(v, "userId") && ins.date == Property(v, "date")
    ensures ins.weight == ParseFloat(Property(v, "weight"), parseText)
  {
    WeightInsert(Property(v, "userId"), ParseFloat(Property(v, "weight"), parseText), Property(v, "date"))
  }

  /** The handler. Destructuring `null` throws, as does a body that is not JSON; every exception
      ends in the generic 500. */
  function Post(body: RequestBody, parseText: string -> Option<real>, store: WeightInsert -> StoreOutcome)
    : (r: Exchange)
    // Unreadable body: generic server error, nothing inserted.
    ensures body.Malformed? || !Destructurable(body.value) ==>
      r == Exchange(500, ErrorBody(InternalErrorMessage), [])
    // Missing or falsy field: client error, nothing inserted.
    ensures body.Json? && Destructurable(body.value) && !Complete(body.value) ==>
      r == Exchange(400, ErrorBody(IncompleteMessage), [])
    // Complete body: exactly one insert, and the answer follows the store's outcome.
    ensures body.Json? && Destructurable(body.value) && Complete(body.value) ==>
      var ins := InsertFor(body.value, parseText);
      && r.inserts == [ins]
      && (store(ins).Inserted? ==> r.status == 200 && r.body == DataBody(store(ins).row))
      && (store(ins).Rejected? ==> r.status == 500 && r.body == ErrorBody(store(ins).message))
      && (store(ins).Thrown? ==> r.status == 500 && r.body == ErrorBody(InternalErrorMessage))
  {
    match body
    case Malformed => Exchange(500, ErrorBody(InternalErrorMessage), [])
    case Json(v) =>
      if !Destructurable(v) then
        Exchange(500, ErrorBody(InternalErrorMessage), [])
      else if !Complete(v) then
        Exchange(400, ErrorBody(IncompleteMessage), [])
      else
        var ins := InsertFor(v, parseText);
        match store(ins)
        case Inserted(row) => Exchange(200, DataBody(row), [ins])
        case Rejected(message) => Exchange(500, ErrorBody(message), [ins])
        case Thrown => Exchange(500, ErrorBody(InternalErrorMessage), [ins])
  }

  /** At most one row is ever inserted, and one is exactly when the body decodes to something with
      all three fields truthy. */
  lemma InsertsAtMostOne(body: RequestBody, parseText: string -> Option<real>, store: WeightInsert -> StoreOutcome)
    ensures |Post(body, parseText, store).inserts| <= 1
    ensures |Post(body, parseText, store).inserts| == 1 <==>
      body.Json? && Destructurable(body.value) && Complete(body.value)
  {
  }

  /** A 400 answer is given exactly when a field is missing or falsy, and a 200 exactly when the
      store inserted the row; an exception's details never reach the caller. */
  lemma StatusClassification(body: RequestBody, parseText: string -> Option<real>, store: WeightInsert -> StoreOutcome)
    ensures var r := Post(body, parseText, store);
      && (r.status == 400 <==> body.Json? && Destructurable(body.value) && !Complete(body.value))
      && (r.status == 200 <==> |r.inserts| == 1 && store(r.inserts[0]).Inserted?)
      && r.status in {200, 400, 500}
      && (r.status == 500 ==>
            && r.body.ErrorBody?
            && (r.body.error == InternalErrorMessage || (|r.inserts| == 1 && store(r.inserts[0]) == Rejected(r.body.error))))
  {
  }

  /** A numeric weight of 0 is falsy and rejected, while the string "0" is truthy and inserted. */
  lemma ZeroWeight(parseText: string -> Option<real>, store: WeightInsert -> StoreOutcome)
    ensures var fields := map["userId" := JsString("u1"), "date" := JsString("2024-01-05")];
      && Post(Json(JsObject(fields["weight" := JsNumber(0.0)])), parseText, store).status == 400
      && |Post(Json(JsObject(fields["weight" := JsString("0")])), parseText, store).inserts| == 1
  {
    var fields := map["userId" := JsString("u1"), "date" := JsString("2024-01-05")];
    assert !Complete(JsObject(fields["weight" := JsNumber(0.0)]));
    assert Complete(JsObject(fields["weight" := JsString("0")]));
  }

  /** A weight that does not parse is still inserted, as NaN. */
  lemma UnparsableWeightIsStored(parseText: string -> Option<real>, store: WeightInsert -> StoreOutcome)
    requires parseText("abc") == None
    ensures var body := JsObject(map["userId" := JsString("u1"), "weight" := JsString("abc"), "date" := JsString("2024-01-05")]);
      Post(Json(body), parseText, store).inserts == [WeightInsert(JsString("u1"), None, JsString("2024-01-05"))]
  {
    var body := JsObject(map["userId" := JsString("u1"), "weight" := JsString("abc"), "date" := JsString("2024-01-05")]);
    assert Complete(body);
  }
}
