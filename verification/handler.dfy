/** The service's request handlers: the routing chain over the path
    segments "v1" and "secret", and the create and read endpoints. */
module Handler {
  import opened Wrappers
  import opened Model
  import opened KeyValue
  import opened Errors
  import opened App
  import Paths
  import Lifecycle
  import Request

  /** Turn a lifecycle outcome into a handler result: a secret is sent
      with status 200, an error is returned to the caller. */
  function Answer(o: Lifecycle.Outcome): (d: Done)
    ensures d.store == o.store
    ensures d.result.Success? <==> o.result.Success?
    ensures o.result.Success? ==> d.result.value == SuccessReply(o.result.value)
    ensures o.result.Failure? ==> d.result.error == o.result.error
  {
    match o.result
    case Success(s) => Done(Success(SuccessReply(s)), o.store)
    case Failure(e) => Done(Failure(e), o.store)
  }

  function NotFoundFor(c: Ctx, env: Env): Done
  {
    Done(Failure(NotFound(c.req.urlPath)), env.store)
  }

  /** Entry point: only paths whose first named segment is "v1" go on. */
  function Default(c: Ctx, env: Env): (d: Done)
    ensures Paths.Next(c.path) != "v1" ==>
            d.result == Failure(NotFound(c.req.urlPath)) && d.store == env.store
    ensures Paths.Next(c.path) == "v1" ==>
            var d1 := V1(c.(path := Paths.Increment(c.path)), env);
            && d.result.Success? && d.store == d1.store
            && (d1.result.Success? ==> d == d1)
            && (d1.result.Failure? ==> d.result.value == ErrorReply(d1.result.error))
  {
    if Paths.Next(c.path) == "v1" then App.Next(V1, c, env) else NotFoundFor(c, env)
  }

  /** Below "v1": only the segment "secret" goes on. */
  function V1(c: Ctx, env: Env): (d: Done)
    ensures Paths.Next(c.path) != "secret" ==>
            d.result == Failure(NotFound(c.req.urlPath)) && d.store == env.store
    ensures Paths.Next(c.path) == "secret" ==>
            var d1 := SecretRoute(c.(path := Paths.Increment(c.path)), env);
            && d.result.Success? && d.store == d1.store
            && (d1.result.Success? ==> d == d1)
            && (d1.result.Failure? ==> d.result.value == ErrorReply(d1.result.error))
  {
    if Paths.Next(c.path) == "secret" then App.Next(SecretRoute, c, env) else NotFoundFor(c, env)
  }

  /** Below "secret": an empty or missing next segment and POST creates; a
      non-empty next segment and GET reads the secret it names. */
  function SecretRoute(c: Ctx, env: Env): (d: Done)
    ensures Paths.Next(c.path) == "" && c.req.verb == "POST" ==>
            var d1 := AddSecret(c, env);
            && d.result.Success? && d.store == d1.store
            && (d1.result.Success? ==> d == d1)
            && (d1.result.Failure? ==> d.result.value == ErrorReply(d1.result.error))
    ensures Paths.Next(c.path) != "" && c.req.verb == "GET" ==>
            var d1 := GetSecretByHash(c.(path := Paths.Increment(c.path)), env);
            && d.result.Success? && d.store == d1.store
            && (d1.result.Success? ==> d == d1)
            && (d1.result.Failure? ==> d.result.value == ErrorReply(d1.result.error))
    ensures !(Paths.Next(c.path) == "" && c.req.verb == "POST") &&
            !(Paths.Next(c.path) != "" && c.req.verb == "GET") ==>
            d.result == Failure(NotFound(c.req.urlPath)) && d.store == env.store
  {
    if Paths.Next(c.path) == "" && c.req.verb == "POST" then App.Call(AddSecret, c, env)
    else if Paths.Next(c.path) != "" && c.req.verb == "GET" then App.Next(GetSecretByHash, c, env)
    else NotFoundFor(c, env)
  }

  /** Create a secret from the request's form with the environment's hash
      and clock readings; send it on success, return the error otherwise. */
  function AddSecret(c: Ctx, env: Env): (d: Done)
    ensures var f := c.req.form;
            var o := Lifecycle.CreateSecret(f.secret, f.expireAfterViews, f.expireAfter,
                                            env.hash, env.clock, env.store);
            && d.store == o.store
            && (o.result.Success? ==> d.result == Success(Reply(StatusOK, SecretBody(o.result.value))))
            && (o.result.Failure? ==> d.result == Failure(o.result.error))
  {
    var f := c.req.form;
    Answer(Lifecycle.CreateSecret(f.secret, f.expireAfterViews, f.expireAfter, env.hash, env.clock, env.store))
  }

  /** Reads the secret named by the current segment, provided the segment
      after it is empty or missing; the read uses the first clock reading. */
  function GetSecretByHash(c: Ctx, env: Env): (d: Done)
    ensures Paths.Next(c.path) != "" ==>
            d.result == Failure(NotFound(c.req.urlPath)) && d.store == env.store
    ensures Paths.Next(c.path) == "" ==>
            var o := Lifecycle.ConsumeSecret(Paths.Current(c.path), c.req.urlPath, env.clock.first, env.store);
            && d.store == o.store
            && (o.result.Success? ==> d.result == Success(Reply(StatusOK, SecretBody(o.result.value))))
            && (o.result.Failure? ==> d.result == Failure(o.result.error))
  {
    if Paths.Next(c.path) != "" then NotFoundFor(c, env)
    else Answer(Lifecycle.ConsumeSecret(Paths.Current(c.path), c.req.urlPath, env.clock.first, env.store))
  }

  /** Where a request ends up, read directly off its verb and path. */
  datatype Route = ToCreate | ToConsume(handle: string) | Unrouted

  function RouteOf(verb: string, url: string): Route
  {
    var segs := Paths.Split(url, Paths.Slash);
    if Paths.At(segs, 1) != "v1" || Paths.At(segs, 2) != "secret" then Unrouted
    else if Paths.At(segs, 3) == "" then (if verb == "POST" then ToCreate else Unrouted)
    else if verb == "GET" && Paths.At(segs, 4) == "" then ToConsume(Paths.At(segs, 3))
    else Unrouted
  }

  /** The reply a lifecycle outcome is sent as once its handler result
      has been answered: the secret, or the error's classification. */
  function ReplyOf(o: Lifecycle.Outcome): Reply
  {
    match Answer(o).result
    case Success(r) => r
    case Failure(e) => ErrorReply(e)
  }

  /** Serving a request through the handler chain creates, reads, or
      answers "not found" without touching the store, exactly as the
      request's route says. */
  lemma Dispatch(req: HttpRequest, env: Env)
    ensures var s := Serve(Default, req, env);
            match RouteOf(req.verb, req.urlPath)
            case ToCreate =>
              var o := Lifecycle.CreateSecret(req.form.secret, req.form.expireAfterViews,
                                              req.form.expireAfter, env.hash, env.clock, env.store);
              s == Served(ReplyOf(o), o.store)
            case ToConsume(h) =>
              var o := Lifecycle.ConsumeSecret(h, req.urlPath, env.clock.first, env.store);
              s == Served(ReplyOf(o), o.store)
            case Unrouted =>
              s == Served(Reply(StatusNotFound, ErrorBody(NotFound(req.urlPath))), env.store)
  {
    var c := NewCtx(req);
    var c1 := c.(path := Paths.Increment(c.path));
    var c2 := c1.(path := Paths.Increment(c1.path));
    var c3 := c2.(path := Paths.Increment(c2.path));
    assert Paths.Next(c.path) == Paths.At(c.path.segments, 1);
    assert Paths.Next(c1.path) == Paths.At(c.path.segments, 2);
    assert Paths.Next(c2.path) == Paths.At(c.path.segments, 3);
    assert Paths.Next(c3.path) == Paths.At(c.path.segments, 4);
    assert Paths.Current(c3.path) == Paths.At(c.path.segments, 3);
  }

  /** The path "/v1/secret/" followed by a segment `h` without a slash. */
  lemma JoinSecretPath(h: string)
    ensures Paths.Join(["", "v1", "secret", h], Paths.Slash) == "/v1/secret/" + h
  {
    var segs := ["", "v1", "secret", h];
    assert segs[1..] == ["v1", "secret", h];
    assert segs[1..][1..] == ["secret", h];
    assert segs[1..][1..][1..] == [h];
    assert Paths.Join(["secret", h], Paths.Slash) == "secret/" + h;
    assert Paths.Join(["v1", "secret", h], Paths.Slash) == "v1/secret/" + h;
  }

  /** The path "/v1/secret" splits into "", "v1" and "secret". */
  lemma SplitCreatePath()
    ensures Paths.Split("/v1/secret", Paths.Slash) == ["", "v1", "secret"]
  {
    var segs := ["", "v1", "secret"];
    assert segs[1..] == ["v1", "secret"];
    assert segs[1..][1..] == ["secret"];
    assert Paths.Join(["v1", "secret"], Paths.Slash) == "v1/secret";
    assert Paths.Join(segs, Paths.Slash) == "/v1/secret";
    Paths.JoinSplit(segs, Paths.Slash);
  }

  /** The path "/v1/secret/" splits into "", "v1", "secret" and "". */
  lemma SplitCreatePathSlash()
    ensures Paths.Split("/v1/secret/", Paths.Slash) == ["", "v1", "secret", ""]
  {
    JoinSecretPath("");
    assert "/v1/secret/" + "" == "/v1/secret/";
    Paths.JoinSplit(["", "v1", "secret", ""], Paths.Slash);
  }

  /** POST to "/v1/secret" or "/v1/secret/" is routed to creation. */
  lemma PostCreates()
    ensures RouteOf("POST", "/v1/secret") == ToCreate
    ensures RouteOf("POST", "/v1/secret/") == ToCreate
  {
    SplitCreatePath();
    SplitCreatePathSlash();
    var segs := Paths.Split("/v1/secret", Paths.Slash);
    assert Paths.At(segs, 1) == "v1" && Paths.At(segs, 2) == "secret" && Paths.At(segs, 3) == "";
    var segs' := Paths.Split("/v1/secret/", Paths.Slash);
    assert Paths.At(segs', 1) == "v1" && Paths.At(segs', 2) == "secret" && Paths.At(segs', 3) == "";
  }

  /** GET of "/v1/secret/<h>" for a non-empty segment `h` reads `h`, and
      no other verb reads it. */
  lemma GetConsumes(h: string)
    requires h != "" && Paths.Slash !in h
    ensures RouteOf("GET", "/v1/secret/" + h) == ToConsume(h)
    ensures forall v :: v != "GET" ==> RouteOf(v, "/v1/secret/" + h) == Unrouted
  {
    JoinSecretPath(h);
    Paths.JoinSplit(["", "v1", "secret", h], Paths.Slash);
  }

  /** Only the segment right after the hash is looked at: GET of
      "/v1/secret/<h>//<rest>" still reads `h`, whatever `rest` holds. */
  lemma GetIgnoresLaterSegments(h: string, rest: string)
    requires h != "" && Paths.Slash !in h
    ensures RouteOf("GET", "/v1/secret/" + h + "//" + rest) == ToConsume(h)
  {
    var sl := Paths.Slash;
    var url := "/v1/secret/" + h + "//" + rest;
    var pre := ["", "v1", "secret", h, ""];
    JoinSecretPath(h);
    assert Paths.Join(pre, sl) == Paths.Join(["", "v1", "secret", h], sl) + [sl] + "" by {
      assert pre[..4] == ["", "v1", "secret", h];
      Paths.JoinAppend(pre[..4], "", sl);
      assert pre == pre[..4] + [""];
    }
    assert url == Paths.Join(pre, sl) + [sl] + rest;
    Paths.SplitJoinThen(pre, rest, sl);
    var segs := Paths.Split(url, sl);
    assert segs == pre + Paths.Split(rest, sl);
    assert Paths.At(segs, 1) == "v1" && Paths.At(segs, 2) == "secret";
    assert Paths.At(segs, 3) == h && Paths.At(segs, 4) == "";
  }

  /** GET of "/v1/secret/" names no secret and is not routed. */
  lemma GetEmptySegmentUnrouted()
    ensures RouteOf("GET", "/v1/secret/") == Unrouted
  {
  }

  /** Only the segment right after "secret" is looked at on the create
      side too: POST to "/v1/secret//<rest>" creates, whatever `rest` holds. */
  lemma PostIgnoresLaterSegments(rest: string)
    ensures RouteOf("POST", "/v1/secret//" + rest) == ToCreate
  {
    var sl := Paths.Slash;
    var url := "/v1/secret//" + rest;
    var pre := ["", "v1", "secret", ""];
    JoinSecretPath("");
    assert Paths.Join(pre, sl) == "/v1/secret/";
    assert url == Paths.Join(pre, sl) + [sl] + rest;
    Paths.SplitJoinThen(pre, rest, sl);
    var segs := Paths.Split(url, sl);
    assert segs == pre + Paths.Split(rest, sl);
    assert Paths.At(segs, 1) == "v1" && Paths.At(segs, 2) == "secret" && Paths.At(segs, 3) == "";
  }

  /** Serving GET "/v1/secret/<h>" reads `h` at the first clock reading
      and sends what the read answers. */
  lemma ServeGetConsumes(h: string, form: Form, env: Env)
    requires h != "" && Paths.Slash !in h
    ensures var url := "/v1/secret/" + h;
            var o := Lifecycle.ConsumeSecret(h, url, env.clock.first, env.store);
            Serve(Default, HttpRequest("GET", url, form), env) == Served(ReplyOf(o), o.store)
  {
    GetConsumes(h);
    Dispatch(HttpRequest("GET", "/v1/secret/" + h, form), env);
  }

  /** An invalid create request is answered 500 with the validation
      message, and the store is left as it was. */
  lemma EmptySecretIsInternalError(form: Form, env: Env)
    requires form.secret == ""
    requires Request.IsDecimal(form.expireAfterViews) && Request.IsDecimal(form.expireAfter)
    ensures var s := Serve(Default, HttpRequest("POST", "/v1/secret", form), env);
            && s.reply == Reply(StatusInternalServerError, ErrorBody(ErrorInternalServerError("empty secret", "")))
            && s.store == env.store
  {
    PostCreates();
    Dispatch(HttpRequest("POST", "/v1/secret", form), env);
  }
}
