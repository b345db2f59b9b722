/** The per-request context and the plumbing that runs handlers: a
    handler either answers the request itself or returns an error, which
    is then answered with the status the error's type selects. */
module App {
  import opened Wrappers
  import opened Model
  import opened KeyValue
  import opened Errors
  import Paths

  /** The form values of a request; a missing field reads as "". */
  datatype Form = Form(secret: string, expireAfterViews: string, expireAfter: string)

  datatype HttpRequest = HttpRequest(verb: string, urlPath: string, form: Form)

  /** What a request sees of the world: the store, the hash the random
      generator would produce, and the clock readings taken meanwhile. */
  datatype Env = Env(store: Store, hash: Handle, clock: Readings)

  datatype Ctx = Ctx(req: HttpRequest, path: Paths.Path)

  datatype Body = SecretBody(secret: Secret) | ErrorBody(error: AppError)

  datatype Reply = Reply(status: int, body: Body)

  /** A handler's result: the reply it sent, or the error it returned;
      and the store it left. */
  datatype Done = Done(result: Result<Reply, AppError>, store: Store)

  type HandlerFunc = (Ctx, Env) -> Done

  function NewCtx(req: HttpRequest): (c: Ctx)
    ensures c.req == req && c.path.index == 0 && c.path.url == req.urlPath
    ensures c.path.segments == Paths.Split(req.urlPath, Paths.Slash)
    ensures Paths.Join(c.path.segments, Paths.Slash) == req.urlPath
  {
    Ctx(req, Paths.NewPath(req.urlPath))
  }

  /** The reply for a secret delivered successfully. */
  function SuccessReply(s: Secret): (r: Reply)
    ensures r.status == StatusOK && r.body.SecretBody? && r.body.secret == s
  {
    Reply(StatusOK, SecretBody(s))
  }

  /** The reply for an error, as classified by its type. */
  function ErrorReply(err: AppError): (r: Reply)
    ensures r.body.ErrorBody? && r.body.error.Error() == err.Error()
    ensures r.status == Classify(err).status
  {
    var c := Classify(err);
    Reply(c.status, ErrorBody(c.body))
  }

  /** Run a handler; an error it returns is answered on the spot, so the
      caller always sees a sent reply. */
  function Call(f: HandlerFunc, c: Ctx, env: Env): (d: Done)
    ensures d.result.Success? && d.store == f(c, env).store
    ensures f(c, env).result.Success? ==> d == f(c, env)
    ensures f(c, env).result.Failure? ==> d.result.value == ErrorReply(f(c, env).result.error)
  {
    var d := f(c, env);
    match d.result
    case Success(_) => d
    case Failure(e) => Done(Success(ErrorReply(e)), d.store)
  }

  /** Advance the path cursor by one segment and run a handler there. */
  function Next(f: HandlerFunc, c: Ctx, env: Env): (d: Done)
    ensures var c' := c.(path := Paths.Increment(c.path));
            && d.result.Success?
            && d.store == f(c', env).store
            && (f(c', env).result.Success? ==> d == f(c', env))
            && (f(c', env).result.Failure? ==> d.result.value == ErrorReply(f(c', env).result.error))
  {
    Call(f, c.(path := Paths.Increment(c.path)), env)
  }

  /** The reply sent for a request and the store it leaves. */
  datatype Served = Served(reply: Reply, store: Store)

  /** Serve a request with the default handler `h`; an error that reaches
      the top is answered by its classification. */
  function Serve(h: HandlerFunc, req: HttpRequest, env: Env): (s: Served)
    ensures var d := h(NewCtx(req), env);
            && s.store == d.store
            && s.reply == (match d.result case Success(r) => r case Failure(e) => ErrorReply(e))
  {
    var d := h(NewCtx(req), env);
    match d.result
    case Success(r) => Served(r, d.store)
    case Failure(e) => Served(ErrorReply(e), d.store)
  }
}
