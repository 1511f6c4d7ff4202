/**
 * The backend as the screens see it: the requests they issue and the
 * response they get back. The HTTP exchange itself is not modelled; its
 * result is an input of every handler.
 */
module Gateway {
  import opened Options
  import opened Numbers
  import opened Records

  const BaseUrl: string := "https://customer-rest-service-frontend-personaltrainer.2.rahtiapp.fi/api"

  /**
   * The outcome of a `fetch`: an HTTP status with whether its body parses as
   * JSON, or a rejected promise.
   */
  datatype Response = Status(code: int, json: bool) | NetworkError

  /** `response.ok`: a 2xx status. */
  predicate Ok(r: Response) {
    r.Status? && 200 <= r.code <= 299
  }

  /**
   * The second revision's service layer (`api.ts`) never looks at the status.
   * A call that only awaits `fetch`, as both deletes do, rejects only when the
   * network does.
   */
  predicate ServiceRejects(r: Response) {
    r.NetworkError?
  }

  /**
   * A call of that layer that ends in `response.json()`, as adding a customer,
   * updating one and adding a training do, also rejects when the body is not
   * JSON, whatever the status.
   */
  predicate ReadRejects(r: Response) {
    r.NetworkError? || !r.json
  }

  /**
   * A JSON-reading call rejects whenever a plain one does, and also on
   * responses a plain one accepts: a 2xx status with an empty body, or a 502
   * error page.
   */
  lemma ReadRejectsMore(r: Response)
    ensures ServiceRejects(r) ==> ReadRejects(r)
    ensures ReadRejects(r) <==> ServiceRejects(r) || (r.Status? && !r.json)
    ensures ReadRejects(Status(201, false)) && !ServiceRejects(Status(201, false))
    ensures ReadRejects(Status(502, false)) && !ServiceRejects(Status(502, false))
  {
  }

  /** The body of `POST /trainings`: the customer is referenced by its link. */
  datatype TrainingBody = TrainingBody(activity: string, duration: int, date: string, customer: string)

  /** A state-changing request a screen sends to the backend. */
  datatype Request =
    | PostCustomer(customer: CustomerForm)
    | PutCustomer(customerId: JsNumber)
    | DeleteCustomer(customerId: JsNumber)
    | PostTraining(training: TrainingBody)
    | DeleteTraining(trainingId: int)

  /**
   * What a handler leaves behind: the screen's new state, the request it
   * issued if any, and whether it then refetched the list.
   */
  datatype Outcome<S> = Outcome(state: S, request: Option<Request>, refetch: bool)

  /** The refetch-after-success policy: a list is refetched only after a request it issued. */
  predicate RefetchesOnlyAfterRequest<S>(o: Outcome<S>) {
    o.refetch ==> o.request.Some?
  }

  /** `!response.ok && response.status !== 204`: the failure test of the final revision's deletes. */
  predicate DeleteFailed(r: Response) {
    !Ok(r) && !(r.Status? && r.code == 204)
  }

  /**
   * The extra 204 test is redundant: 204 No Content (section 15.3.5 of
   * RFC 9110) is a 2xx status, so a delete fails exactly when the response
   * is not ok.
   */
  lemma DeleteFailedIffNotOk(r: Response)
    ensures DeleteFailed(r) <==> !Ok(r)
    ensures r.Status? && r.code == 204 ==> Ok(r)
  {
  }
}
