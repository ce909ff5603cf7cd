/**
 * The request handlers of the keepsake blueprint that compute something:
 * the `handle_error` wrapper, the experiment page and the experiment list.
 * Template rendering is represented by the context a template receives.
 */
module Blueprint {
  import opened Wrappers
  import opened Lexicographic
  import opened Repository
  import opened Ordering

  /** HTTP status of a failed handler. */
  const NotFound: int := 404
  /** HTTP status Flask gives a handler that returns a page without a status. */
  const Ok: int := 200

  /** `render_template(template, message=..., title=...)`. */
  datatype ErrorPage = ErrorPage(template: string, message: string, title: string)

  /** What a wrapped handler responds: what the handler returned, or an error page with a status. */
  datatype Response<+R> = Passed(value: R) | Failed(page: ErrorPage, status: int)

  /** The context a page template is rendered with. */
  datatype Page =
    | ExperimentPage(title: string, shortId: string, created: string, command: string, params: Dict, metrics: Dict)
    | ExperimentListPage(shortIds: seq<Pair>)

  /**
   * `handle_error(fn)` applied to one call of `fn`: a return passes through,
   * an exception becomes the error page with status 404.
   */
  function HandleError<R>(call: Outcome<R>): (resp: Response<R>)
    ensures resp.Passed? <==> call.Returned?
    ensures call.Returned? ==> resp.value == call.value
    ensures call.Raised? ==> resp.page.message == call.message
    ensures resp.Failed? ==> resp.status == NotFound
    ensures resp.Failed? ==> resp.page.template == "error.html" && resp.page.title == "Error"
  {
    match call
    case Returned(r) => Passed(r)
    case Raised(message) => Failed(ErrorPage("error.html", message, "Error"), NotFound)
  }

  /** What a client can tell from a response: the page it got, or the message on the error page. */
  function Observed<R>(resp: Response<R>): Outcome<R>
  {
    match resp
    case Passed(r) => Returned(r)
    case Failed(page, _) => Raised(page.message)
  }

  /**
   * `handle_error` loses nothing: the handler's result comes back unchanged,
   * and an exception's message is on the error page.
   */
  lemma HandleErrorKeepsOutcome<R>(call: Outcome<R>)
    ensures Observed(HandleError(call)) == call
  {
  }

  /** The HTTP status of a response. */
  function Status<R>(resp: Response<R>): int
  {
    match resp
    case Passed(_) => Ok
    case Failed(_, status) => status
  }

  /** The body of `get_experiment`, given what `project.experiments.get(exp_id)` did. */
  function GetExperiment(found: Outcome<Experiment>): (page: Outcome<Page>)
    requires found.Returned? ==> WellFormed(found.value)
    ensures page.Raised? <==> found.Raised?
    ensures found.Raised? ==> page.message == found.message
    ensures found.Returned? ==>
      var e := found.value;
      && page.value.ExperimentPage?
      && page.value.title == "Experiment"
      && page.value.shortId == e.shortId && page.value.created == e.created
      && page.value.command == e.command
      // params: the experiment's params, keys ascending
      && KeysAscending(page.value.params) && multiset(page.value.params) == multiset(e.params)
      // metrics: the best checkpoint's metrics, keys ascending, or none without a best checkpoint
      && (e.best.None? ==> page.value.metrics == [])
      && (e.best.Some? ==>
            KeysAscending(page.value.metrics) && multiset(page.value.metrics) == multiset(e.best.value.metrics))
  {
    match found
    case Raised(message) => Raised(message)
    case Returned(e) =>
      Returned(ExperimentPage(
        "Experiment", e.shortId, e.created, e.command,
        SortByKey(e.params),
        if e.best.Some? then SortByKey(e.best.value.metrics) else []))
  }

  /** `GET /experiments/<exp_id>`: `get_experiment` wrapped by `handle_error`. */
  function ExperimentRoute(found: Outcome<Experiment>): (resp: Response<Page>)
    requires found.Returned? ==> WellFormed(found.value)
    ensures Status(resp) == NotFound <==> found.Raised?
    ensures Status(resp) == Ok <==> found.Returned?
  {
    HandleError(GetExperiment(found))
  }

  /**
   * Looking up an id the repository does not hold answers 404, and one it
   * holds answers 200 with that experiment's page.
   */
  lemma UnknownExperimentIsNotFound(experiments: map<string, Experiment>, expId: string, message: string)
    requires forall id :: id in experiments ==> WellFormed(experiments[id])
    ensures
      var found := if expId in experiments then Returned(experiments[expId]) else Raised(message);
      var resp := ExperimentRoute(found);
      && (Status(resp) == NotFound <==> expId !in experiments)
      && (Status(resp) == Ok <==> expId in experiments)
      && (expId in experiments ==> resp.value.shortId == experiments[expId].shortId)
      && (expId !in experiments ==> resp.page.message == message)
  {
  }

  /** The body of `list_experiments`, given what `project.experiments.list()` did. */
  function ListExperiments(listed: Outcome<seq<Experiment>>): (page: Outcome<Page>)
    ensures page.Raised? <==> listed.Raised?
    ensures listed.Raised? ==> page.message == listed.message
    ensures listed.Returned? ==>
      && page.value.ExperimentListPage?
      && NonIncreasing(page.value.shortIds)
      && multiset(page.value.shortIds) == multiset(Entries(listed.value))
  {
    match listed
    case Raised(message) => Raised(message)
    case Returned(experiments) => Returned(ExperimentListPage(ExperimentList(experiments)))
  }

  /** `GET /experiments`: `list_experiments` wrapped by `handle_error`. */
  function ListRoute(listed: Outcome<seq<Experiment>>): (resp: Response<Page>)
    ensures Status(resp) == Ok <==> listed.Returned?
    ensures Status(resp) == NotFound <==> listed.Raised?
  {
    HandleError(ListExperiments(listed))
  }
}
