/** Creation and consumption of secrets against the key-value store:
    create writes a fresh record under a new hash; consume reads a record,
    refuses it when no views remain, and otherwise writes it back with one
    view fewer and an expiry recomputed from its absolute deadline. */
module Lifecycle {
  import opened Wrappers
  import opened Model
  import opened KeyValue
  import opened Errors
  import Request

  /** What an operation answers and the store it leaves behind. */
  datatype Outcome = Outcome(result: Result<Secret, AppError>, store: Store)

  /** Create a secret from the raw form fields, using `hash` as its key and
      the two clock readings for its creation and expiry times. */
  function CreateSecret(secret: string, expireAfterViews: string, expireAfter: string,
                        hash: Handle, clock: Readings, st: Store): (r: Outcome)
    ensures r.result.Success? <==>
            && Request.IsDecimal(expireAfterViews) && Request.IsDecimal(expireAfter)
            && secret != "" && Request.ParseDecimal(expireAfterViews).value >= 1
    ensures r.result.Failure? ==> r.store == st && r.result.error.Plain?
    ensures !Request.IsDecimal(expireAfterViews) ==>
            r.result == Failure(Request.SyntaxError(expireAfterViews))
    ensures Request.IsDecimal(expireAfterViews) && !Request.IsDecimal(expireAfter) ==>
            r.result == Failure(Request.SyntaxError(expireAfter))
    ensures Request.IsDecimal(expireAfterViews) && Request.IsDecimal(expireAfter) && secret == "" ==>
            r.result == Failure(Plain("empty secret"))
    ensures && Request.IsDecimal(expireAfterViews) && Request.IsDecimal(expireAfter) && secret != ""
            && Request.ParseDecimal(expireAfterViews).value < 1 ==>
            r.result == Failure(Plain("ExpireAfterViews not valid"))
    ensures r.result.Success? ==>
            var s := r.result.value;
            var lifetime := Request.ParseDecimal(expireAfter).value * Request.Minute;
            && s.hash == hash
            && s.secretText == secret
            && s.remainingViews == Request.ParseDecimal(expireAfterViews).value
            && s.createdAt == clock.first
            && s.expiresAt == clock.second + lifetime
            && r.store.Keys == st.Keys + {hash}
            && r.store[hash] == Entry(s, lifetime)
            && (forall k :: k in st && k != hash ==> r.store[k] == st[k])
  {
    match Request.NewAddSecret(secret, expireAfterViews, expireAfter)
    case Failure(e) => Outcome(Failure(BadRequest(e)), st)
    case Success(params) =>
      match Request.Validate(params)
      case Some(e) => Outcome(Failure(BadRequest(e)), st)
      case None =>
        var s := Secret(hash, params.secret, clock.first, clock.second + params.expireAfter,
                        params.expireAfterViews);
        Outcome(Success(s), Set(st, hash, s, params.expireAfter))
  }

  /** A record whose creation and expiry times coincide was created
      without a lifetime. */
  predicate NeverExpires(s: Secret)
  {
    s.createdAt == s.expiresAt
  }

  /** The expiry duration a consumed record is written back with: none for
      a record without a lifetime, otherwise the time left until its
      absolute deadline, negative once the deadline has passed. */
  function RewriteTtl(s: Secret, now: int): (ttl: int)
    ensures NeverExpires(s) ==> ttl == 0
    ensures !NeverExpires(s) ==> now + ttl == s.expiresAt
    ensures ttl < 0 <==> !NeverExpires(s) && s.expiresAt < now
  {
    if s.createdAt != s.expiresAt then s.expiresAt - now else 0
  }

  /** Read the secret stored under `hash` at time `now`, spending one view.
      `url` is the request path, quoted in the "not found" error. */
  function ConsumeSecret(hash: string, url: string, now: int, st: Store): (r: Outcome)
    ensures r.result.Success? <==> hash in st && st[hash].secret.remainingViews != 0
    ensures r.result.Failure? ==> r.result == Failure(NotFound(url)) && r.store == st
    ensures r.result.Success? ==>
            var before := st[hash].secret;
            var s := r.result.value;
            && s.hash == before.hash
            && s.secretText == before.secretText
            && s.createdAt == before.createdAt
            && s.expiresAt == before.expiresAt
            && s.remainingViews == before.remainingViews - 1
            && hash in r.store && r.store[hash] == Entry(s, RewriteTtl(before, now))
    ensures r.store.Keys == st.Keys
    ensures forall k :: k in st && k != hash ==> r.store[k] == st[k]
    ensures forall k :: k in st ==> r.store[k].secret.remainingViews <= st[k].secret.remainingViews
  {
    match Get(st, hash)
    case None => Outcome(Failure(NotFound(url)), st)
    case Some(before) =>
      if before.remainingViews == 0 then Outcome(Failure(NotFound(url)), st)
      else
        var s := before.(remainingViews := before.remainingViews - 1);
        Outcome(Success(s), Set(st, hash, s, RewriteTtl(s, now)))
  }

  /** The answers of consecutive reads of `hash` at the times `nows`, each
      read seeing the store the previous one left. */
  function ConsumeSequence(hash: string, url: string, nows: seq<int>, st: Store): (rs: seq<Result<Secret, AppError>>)
    ensures |rs| == |nows|
    decreases |nows|
  {
    if |nows| == 0 then []
    else
      var o := ConsumeSecret(hash, url, nows[0], st);
      [o.result] + ConsumeSequence(hash, url, nows[1..], o.store)
  }

  /** A record with `m >= 0` views left answers the next `m` reads with
      counts m-1, ..., 0 and nothing else changed, and every read after
      that is "not found". */
  lemma {:induction false} CountsDown(hash: string, url: string, nows: seq<int>, st: Store)
    requires hash in st && st[hash].secret.remainingViews >= 0
    ensures var before := st[hash].secret;
            var m := before.remainingViews;
            var rs := ConsumeSequence(hash, url, nows, st);
            && (forall k :: 0 <= k < |nows| && k < m ==>
                  rs[k] == Success(before.(remainingViews := m - 1 - k)))
            && (forall k :: m <= k < |nows| ==> rs[k] == Failure(NotFound(url)))
    decreases |nows|
  {
    if |nows| > 0 {
      var before := st[hash].secret;
      var m := before.remainingViews;
      var o := ConsumeSecret(hash, url, nows[0], st);
      var rs := ConsumeSequence(hash, url, nows, st);
      var rest := ConsumeSequence(hash, url, nows[1..], o.store);
      assert rs == [o.result] + rest;
      CountsDown(hash, url, nows[1..], o.store);
      var after := o.store[hash].secret;
      var m' := after.remainingViews;
      assert forall j :: 0 <= j < |nows[1..]| && j < m' ==> ConsumeSequence(hash, url, nows[1..], o.store)[j] == Success(after.(remainingViews := m' - 1 - j));
      assert forall j :: m' <= j < |nows[1..]| ==> ConsumeSequence(hash, url, nows[1..], o.store)[j] == Failure(NotFound(url));
      if m == 0 {
        assert o.store == st && m' == 0;
        forall k | 0 <= k < |nows|
          ensures rs[k] == Failure(NotFound(url))
        {
          if k > 0 {
            assert rs[k] == rest[k - 1];
          }
        }
      } else {
        assert after == before.(remainingViews := m - 1) && m' == m - 1;
        forall k | 0 <= k < |nows| && k < m
          ensures rs[k] == Success(before.(remainingViews := m - 1 - k))
        {
          if k > 0 {
            assert rs[k] == rest[k - 1];
            assert after.(remainingViews := m' - 1 - (k - 1)) == before.(remainingViews := m - 1 - k);
          }
        }
        forall k | m <= k < |nows|
          ensures rs[k] == Failure(NotFound(url))
        {
          assert rs[k] == rest[k - 1];
        }
      }
    }
  }

  /** A secret created with N views and then read N + 1 times in a row is
      shown N times, with N-1, ..., 0 views left and its text intact, and
      the last read is "not found". */
  lemma Exhaustion(secret: string, expireAfterViews: string, expireAfter: string,
                   hash: Handle, clock: Readings, st: Store, url: string, nows: seq<int>)
    requires CreateSecret(secret, expireAfterViews, expireAfter, hash, clock, st).result.Success?
    requires |nows| == Request.ParseDecimal(expireAfterViews).value + 1
    ensures var c := CreateSecret(secret, expireAfterViews, expireAfter, hash, clock, st);
            var n := Request.ParseDecimal(expireAfterViews).value;
            var rs := ConsumeSequence(hash, url, nows, c.store);
            && (forall k :: 0 <= k < n ==>
                  && rs[k].Success?
                  && rs[k].value.secretText == secret
                  && rs[k].value.hash == hash
                  && rs[k].value.remainingViews == n - 1 - k)
            && rs[n] == Failure(NotFound(url))
  {
    var c := CreateSecret(secret, expireAfterViews, expireAfter, hash, clock, st);
    CountsDown(hash, url, nows, c.store);
  }

  /** A created secret carries the no-lifetime marker exactly when its two
      clock readings are the lifetime apart, so a positive lifetime never
      produces it, and a zero lifetime produces it only when both readings
      agree. */
  lemma CreatedNeverExpires(secret: string, expireAfterViews: string, expireAfter: string,
                            hash: Handle, clock: Readings, st: Store)
    requires CreateSecret(secret, expireAfterViews, expireAfter, hash, clock, st).result.Success?
    ensures var s := CreateSecret(secret, expireAfterViews, expireAfter, hash, clock, st).result.value;
            var minutes := Request.ParseDecimal(expireAfter).value;
            && (NeverExpires(s) <==> clock.first == clock.second + minutes * Request.Minute)
            && (minutes > 0 ==> !NeverExpires(s))
            && (minutes == 0 ==> (NeverExpires(s) <==> clock.first == clock.second))
  {
  }

  /** Reading a record that has a lifetime writes it back with an expiry
      that ends exactly at the deadline fixed when it was created. */
  lemma ConsumeKeepsDeadline(secret: string, expireAfterViews: string, expireAfter: string,
                             hash: Handle, clock: Readings, st: Store, url: string, now: int)
    requires CreateSecret(secret, expireAfterViews, expireAfter, hash, clock, st).result.Success?
    requires Request.ParseDecimal(expireAfter).value > 0
    ensures var c := CreateSecret(secret, expireAfterViews, expireAfter, hash, clock, st);
            var o := ConsumeSecret(hash, url, now, c.store);
            && o.result.Success?
            && now + o.store[hash].ttl == clock.second + Request.ParseDecimal(expireAfter).value * Request.Minute
  {
  }
}
