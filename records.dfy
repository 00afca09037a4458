/**
 * The values both session middlewares work on: the session record, the
 * cookies of a request and of a response, and the response itself.
 *
 * The application's session value `T` is opaque to the middleware; it is a
 * `Payload` here, and `ZeroPayload` stands for `new(T)`. Encoded session
 * data is `Bytes`. An `error` is its message.
 */
module Records {
  import opened Wrappers
  import opened Clock

  newtype byte = x: int | 0 <= x < 256

  type Bytes = seq<byte>
  type Error = string
  type Payload = map<string, string>

  /** The zero value of the session type, as `new(T)` allocates it. */
  const ZeroPayload: Payload := map[]

  /** A copy of a record's exported fields, as a store keeps it. */
  datatype RecordValue = RecordValue(id: string, idleDeadline: Time, absoluteDeadline: Time, data: Bytes)

  /**
   * The request's `*Record`. `session` is the decoded session value; `None`
   * is the nil that `Delete` leaves behind.
   */
  class Record {
    var id: string
    var idleDeadline: Time
    var absoluteDeadline: Time
    var data: Bytes
    var session: Option<Payload>

    constructor (id: string, idleDeadline: Time, absoluteDeadline: Time, data: Bytes, session: Option<Payload>)
      ensures this.id == id && this.idleDeadline == idleDeadline && this.absoluteDeadline == absoluteDeadline
      ensures this.data == data && this.session == session
    {
      this.id := id;
      this.idleDeadline := idleDeadline;
      this.absoluteDeadline := absoluteDeadline;
      this.data := data;
      this.session := session;
    }

    /** The value `*r` a store saves. */
    function Value(): RecordValue
      reads this
    {
      RecordValue(id, idleDeadline, absoluteDeadline, data)
    }
  }

  /** `http.SameSite`; `SameSiteUnset` is its zero value. */
  datatype SameSite = SameSiteUnset | SameSiteDefaultMode | SameSiteLaxMode | SameSiteStrictMode | SameSiteNoneMode

  /** The fields of an `http.Cookie` the middlewares set. */
  datatype Cookie = Cookie(name: string, value: string, path: string, domain: string, maxAge: int,
                           httpOnly: bool, secure: bool, sameSite: SameSite, partitioned: bool)

  /** The Set-Cookie that ends the session in the browser: the template with `MaxAge = -1`. */
  function DeleteCookie(template: Cookie): (c: Cookie)
    ensures c.maxAge < 0
    ensures c.(maxAge := template.maxAge) == template
  {
    template.(maxAge := -1)
  }

  /** The Set-Cookie of a saved session: the template carrying the ID, alive for the whole seconds left until `idleDeadline`. */
  function SetCookieFor(template: Cookie, id: string, idleDeadline: Time, now: Time): (c: Cookie)
    ensures c.value == id
    ensures c.(value := template.value, maxAge := template.maxAge) == template
    ensures now <= idleDeadline ==> 0 <= c.maxAge && c.maxAge * Second <= idleDeadline - now < (c.maxAge + 1) * Second
    ensures idleDeadline < now ==> c.maxAge <= 0 && (c.maxAge - 1) * Second < idleDeadline - now
  {
    template.(value := id, maxAge := TruncSeconds(idleDeadline - now))
  }

  /** A cookie as the request carries it. */
  datatype RequestCookie = RequestCookie(name: string, value: string)

  /** `r.CookiesNamed(name)`: the request's cookies called `name`, in order; none for the empty name. */
  function CookiesNamed(cookies: seq<RequestCookie>, name: string): (r: seq<RequestCookie>)
    ensures |r| <= |cookies|
    ensures forall c :: c in r ==> c in cookies && c.name == name
    ensures name != "" ==> forall c :: c in cookies && c.name == name ==> c in r
    ensures name == "" ==> r == []
  {
    if cookies == [] || name == "" then []
    else
      var rest := CookiesNamed(cookies[..|cookies| - 1], name);
      var last := cookies[|cookies| - 1];
      if last.name == name then rest + [last] else rest
  }

  /** The session ID a request offers: the value of its cookie `name` when it has exactly one. */
  function OfferedID(cookies: seq<RequestCookie>, name: string): (r: Option<string>)
    ensures r.Some? ==> RequestCookie(name, r.value) in cookies
  {
    var named := CookiesNamed(cookies, name);
    if |named| == 1 then Some(named[0].value) else None
  }

  /** Two cookies with the session's name offer no ID at all. */
  lemma {:induction false} TwoCookiesOfferNone(cookies: seq<RequestCookie>, name: string, i: nat, j: nat)
    requires i < j < |cookies| && name != ""
    requires cookies[i].name == name && cookies[j].name == name
    ensures |CookiesNamed(cookies, name)| >= 2
    ensures OfferedID(cookies, name) == None
  {
    var init := cookies[..|cookies| - 1];
    if j < |cookies| - 1 {
      assert init[i] == cookies[i] && init[j] == cookies[j];
      TwoCookiesOfferNone(init, name, i, j);
    } else {
      assert cookies[i] == init[i];
      assert cookies[i] in CookiesNamed(init, name);
    }
  }

  /**
   * `CookiesNamed` keeps order and multiplicity: the cookies named `name`
   * of `a + b` are those of `a` followed by those of `b`.
   */
  lemma {:induction false} CookiesNamedAppend(a: seq<RequestCookie>, b: seq<RequestCookie>, name: string)
    ensures CookiesNamed(a + b, name) == CookiesNamed(a, name) + CookiesNamed(b, name)
    decreases |b|
  {
    if b == [] {
      assert a + b == a;
    } else if name != "" {
      var init := b[..|b| - 1];
      assert (a + b)[..|a + b| - 1] == a + init;
      assert (a + b)[|a + b| - 1] == b[|b| - 1];
      CookiesNamedAppend(a, init, name);
    }
  }

  /** A single cookie is kept exactly when it has the (non-empty) name asked for. */
  lemma CookiesNamedSingle(c: RequestCookie, name: string)
    ensures CookiesNamed([c], name) == if c.name == name && name != "" then [c] else []
  {
    assert [c][..0] == [];
  }

  /** A request none of whose cookies has the session's name offers no ID. */
  lemma {:induction false} NoNamedCookie(cookies: seq<RequestCookie>, name: string)
    requires forall j :: 0 <= j < |cookies| ==> cookies[j].name != name
    ensures CookiesNamed(cookies, name) == []
    ensures OfferedID(cookies, name) == None
    decreases |cookies|
  {
    if cookies != [] && name != "" {
      var init := cookies[..|cookies| - 1];
      assert forall j :: 0 <= j < |init| ==> init[j] == cookies[j];
      NoNamedCookie(init, name);
    }
  }

  /** A request with exactly one cookie of the session's (non-empty) name offers that cookie's value. */
  lemma OneNamedCookie(cookies: seq<RequestCookie>, name: string, i: nat)
    requires i < |cookies| && name != "" && cookies[i].name == name
    requires forall j :: 0 <= j < |cookies| && j != i ==> cookies[j].name != name
    ensures CookiesNamed(cookies, name) == [cookies[i]]
    ensures OfferedID(cookies, name) == Some(cookies[i].value)
  {
    var before, after := cookies[..i], cookies[i + 1..];
    assert cookies == before + [cookies[i]] + after;
    assert forall j :: 0 <= j < |before| ==> before[j] == cookies[j];
    assert forall j :: 0 <= j < |after| ==> after[j] == cookies[i + 1 + j];
    NoNamedCookie(before, name);
    NoNamedCookie(after, name);
    CookiesNamedSingle(cookies[i], name);
    CookiesNamedAppend(before + [cookies[i]], after, name);
    CookiesNamedAppend(before, [cookies[i]], name);
  }

  /** What a middleware operation called from a handler comes to: a value, a returned error, or a panic. */
  datatype Call<+T> = Done(value: T) | Errored(error: Error) | Panics(message: string)

  /**
   * The `http.ResponseWriter` the middleware writes to, as a record of what
   * was sent: Set-Cookie headers, status codes, body bytes, and the errors
   * handed to the configured error handler.
   */
  class Response {
    var cookies: seq<Cookie>
    var statuses: seq<int>
    var body: Bytes
    var errors: seq<Error>

    constructor ()
      ensures cookies == [] && statuses == [] && body == [] && errors == []
    {
      cookies := [];
      statuses := [];
      body := [];
      errors := [];
    }

    /** `http.SetCookie(w, &c)` */
    method SetCookie(c: Cookie)
      modifies this
      ensures cookies == old(cookies) + [c]
      ensures statuses == old(statuses) && body == old(body) && errors == old(errors)
    {
      cookies := cookies + [c];
    }

    /** `w.Write(b)` */
    method Write(b: Bytes) returns (n: int, err: Option<Error>)
      modifies this
      ensures body == old(body) + b && n == |b| && err == None
      ensures cookies == old(cookies) && statuses == old(statuses) && errors == old(errors)
    {
      body := body + b;
      n := |b|;
      err := None;
    }

    /** `w.WriteHeader(code)` */
    method WriteHeader(code: int)
      modifies this
      ensures statuses == old(statuses) + [code]
      ensures cookies == old(cookies) && body == old(body) && errors == old(errors)
    {
      statuses := statuses + [code];
    }

    /** The middleware's `ErrorHandler(w, r, err)`. */
    method HandleError(err: Error)
      modifies this
      ensures errors == old(errors) + [err]
      ensures cookies == old(cookies) && statuses == old(statuses) && body == old(body)
    {
      errors := errors + [err];
    }
  }
}
