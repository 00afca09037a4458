/**
 * The sessions middleware, the earlier variant of httpsession: settings
 * defaulted from a `Config`, a pluggable codec, a save that emits the
 * delete cookie itself and the session cookie only once the store has the
 * record, and a handler that must write something.
 *
 * Every clock reading is a `Time` parameter; a random ID is a string
 * parameter. The handler is a script of `Action`s.
 */
module Sessions {
  import opened Wrappers
  import opened Clock
  import opened Records
  import opened Memory
  import opened Stores

  const AnotherActiveSession := "another active session exists"
  const MiddlewareNotUsed := "sessions: middleware is not used"
  const Unreachable := "unreachable"
  /** The panic of `r.session.(*T)` once `Delete` has set the session to nil. */
  const NilSession := "interface conversion: interface {} is nil, not *T"
  const DefaultCookieName := "SESSIONID"

  /** `Codec[T]` */
  datatype Codec = Codec(encode: Payload -> Result<Bytes, Error>, decode: Bytes -> Result<Payload, Error>)

  /** `Config[T]`; a `None` store or codec is the nil interface. */
  datatype Config = Config(idleTimeout: Duration, absoluteTimeout: Duration, cleanupInterval: Duration,
                           cookie: Cookie, store: Option<Store>, codec: Option<Codec>)

  /** The middleware's unexported settings. */
  datatype Settings = Settings(idleTimeout: Duration, absoluteTimeout: Duration, cookie: Cookie)

  /** `cmp.Or(a, b)` on strings: the first that is not empty. */
  function OrString(a: string, b: string): string {
    if a != "" then a else b
  }

  /** `cmp.Or(a, b)` on booleans: the first that is not false. */
  function OrBool(a: bool, b: bool): bool {
    if a then a else b
  }

  /** `cmp.Or(a, b)` on `http.SameSite`: the first that is not the zero mode. */
  function OrSameSite(a: SameSite, b: SameSite): SameSite {
    if a != SameSiteUnset then a else b
  }

  /**
   * The settings `NewMiddleware(ctx, cfg)` derives from `cfg`: non-positive
   * timeouts become 24 hours and 7 days, an unnamed cookie is called
   * "SESSIONID", a pathless one gets "/", HttpOnly and Secure are always
   * on, an unset SameSite becomes Lax, and Domain and Partitioned are kept.
   */
  function Configure(cfg: Config): (s: Settings)
    ensures s.idleTimeout == (if cfg.idleTimeout <= 0 then 24 * Hour else cfg.idleTimeout)
    ensures s.absoluteTimeout == (if cfg.absoluteTimeout <= 0 then 7 * 24 * Hour else cfg.absoluteTimeout)
    ensures 0 < s.idleTimeout && 0 < s.absoluteTimeout
    ensures s.cookie.name == (if cfg.cookie.name == "" then DefaultCookieName else cfg.cookie.name)
    ensures s.cookie.path == (if cfg.cookie.path == "" then "/" else cfg.cookie.path)
    ensures s.cookie.name != "" && s.cookie.path != ""
    ensures s.cookie.httpOnly && s.cookie.secure
    ensures s.cookie.sameSite == (if cfg.cookie.sameSite == SameSiteUnset then SameSiteLaxMode else cfg.cookie.sameSite)
    ensures s.cookie.domain == cfg.cookie.domain && s.cookie.partitioned == cfg.cookie.partitioned
    ensures s.cookie.value == "" && s.cookie.maxAge == 0
  {
    var cookie := Cookie(OrString(cfg.cookie.name, DefaultCookieName), "", OrString(cfg.cookie.path, "/"),
                         OrString(cfg.cookie.domain, ""), 0, OrBool(cfg.cookie.httpOnly, true),
                         OrBool(cfg.cookie.secure, true), OrSameSite(cfg.cookie.sameSite, SameSiteLaxMode),
                         OrBool(cfg.cookie.partitioned, false));
    Settings(if cfg.idleTimeout <= 0 then 24 * Hour else cfg.idleTimeout,
             if cfg.absoluteTimeout <= 0 then 7 * 24 * Hour else cfg.absoluteTimeout,
             cookie)
  }

  /** What `loadOrCreate` decides. */
  datatype Resolved = Fresh | Loaded(v: RecordValue, session: Payload) | LoadError(error: Error)

  /** The result of `save`, the record afterwards, the store's map afterwards, and the cookie set. */
  datatype SaveOutcome = SaveOutcome(err: Option<Error>, record: RecordValue, stored: map<string, RecordValue>,
                                     cookie: Option<Cookie>)

  /** What the handler did, in order, each at its own clock reading. */
  datatype Step =
    | GetStep(update: Option<Payload>)
    | TokenStep
    | DeleteStep
    | RenewStep(random: string)
    | RenewIDStep(id: string)
    | WriteStep(b: Bytes)
    | WriteHeaderStep(code: int)

  datatype Action = Action(at: Time, step: Step)

  predicate Writes(s: Step) {
    s.WriteStep? || s.WriteHeaderStep?
  }

  /** The handler writes no body and no status. */
  predicate NoWrites(actions: seq<Action>) {
    forall i :: 0 <= i < |actions| ==> !Writes(actions[i].step)
  }

  /** The handler never calls `Get`, the only step that can panic once the middleware ran. */
  predicate NoGets(actions: seq<Action>) {
    forall i :: 0 <= i < |actions| ==> !actions[i].step.GetStep?
  }

  /** How a request ended. */
  datatype Outcome = LoadFailed(error: Error) | Conflict | Panicked(message: string) | Served

  function Attached(h: Option<Record>): set<Record> {
    if h.Some? then {h.value} else {}
  }

  class Middleware {
    const settings: Settings
    const store: Store
    const codec: Codec
    /** `activeSession`: the IDs of the sessions a request is serving. */
    var active: set<string>

    /**
     * `NewMiddleware(ctx, cfg)`: the defaulted settings, a fresh memory store
     * when none is given, `json` when no codec is given.
     */
    constructor (cfg: Config, json: Codec)
      ensures settings == Configure(cfg)
      ensures cfg.store.Some? ==> store == cfg.store.value
      ensures cfg.store.None? ==> fresh(store) && fresh(store.mem) && store.mem.m == map[] && forall c :: store.fails(c) == None
      ensures codec == if cfg.codec.Some? then cfg.codec.value else json
      ensures active == {}
    {
      settings := Configure(cfg);
      if cfg.store.Some? {
        store := cfg.store.value;
      } else {
        store := new Store(NeverFails);
      }
      codec := if cfg.codec.Some? then cfg.codec.value else json;
      active := {};
    }

    /**
     * `loadOrCreate(id)`: no ID means a fresh record without asking the
     * store; a store error or a decode error is passed on; a record the
     * store does not have means a fresh record.
     */
    function LoadOrCreateSpec(id: string, m: map<string, RecordValue>, now: Time): (r: Resolved)
      ensures id == "" ==> r == Fresh
      ensures r.Loaded? ==> LoadFrom(m, id, now) == Some(r.v) && codec.decode(r.v.data) == Success(r.session)
      ensures r.LoadError? ==>
        id != "" && (store.fails(LoadCall(id)) == Some(r.error)
                     || (store.fails(LoadCall(id)).None? && LoadFrom(m, id, now).Some?
                         && codec.decode(LoadFrom(m, id, now).value.data) == Failure(r.error)))
      ensures r == Fresh <==> id == "" || (store.fails(LoadCall(id)).None? && LoadFrom(m, id, now).None?)
    {
      if id == "" then Fresh
      else
        match store.fails(LoadCall(id))
        case Some(e) => LoadError(e)
        case None =>
          match LoadFrom(m, id, now)
          case None => Fresh
          case Some(v) =>
            match codec.decode(v.data)
            case Failure(e) => LoadError(e)
            case Success(p) => Loaded(v, p)
    }

    /** `newRecord()`: a new ID, zero idle deadline, absolute deadline now + absoluteTimeout, a zero session. */
    method NewRecord(randomID: string, now: Time) returns (rec: Record)
      ensures fresh(rec)
      ensures rec.id == randomID && rec.idleDeadline == ZeroTime && rec.absoluteDeadline == now + settings.absoluteTimeout
      ensures rec.data == [] && rec.session == Some(ZeroPayload)
    {
      rec := new Record(randomID, ZeroTime, now + settings.absoluteTimeout, [], Some(ZeroPayload));
    }

    method LoadOrCreate(id: string, now: Time, randomID: string) returns (res: Result<Record, Error>)
      ensures var r := LoadOrCreateSpec(id, store.mem.m, now);
        (r.LoadError? ==> res == Failure(r.error))
        && (r.Fresh? ==>
              res.Success? && fresh(res.value) && res.value.Value() == RecordValue(randomID, ZeroTime, now + settings.absoluteTimeout, [])
              && res.value.session == Some(ZeroPayload))
        && (r.Loaded? ==> res.Success? && fresh(res.value) && res.value.Value() == r.v && res.value.session == Some(r.session))
    {
      if id == "" {
        var rec := NewRecord(randomID, now);
        return Success(rec);
      }
      var r, err := store.Load(id, now);
      if err.Some? {
        return Failure(err.value);
      } else if r.None? {
        var rec := NewRecord(randomID, now);
        return Success(rec);
      }
      var session := codec.decode(r.value.data);
      if session.Failure? {
        return Failure(session.error);
      }
      var rec := new Record(r.value.id, r.value.idleDeadline, r.value.absoluteDeadline, r.value.data, Some(session.value));
      return Success(rec);
    }

    /**
     * `save`: a deleted record gets the delete cookie and no store call.
     * Otherwise the idle deadline becomes the earlier of now + idleTimeout
     * and the absolute deadline, the session is encoded and saved, and the
     * session cookie is set only when both succeeded.
     */
    function SaveSpec(v: RecordValue, session: Option<Payload>, m: map<string, RecordValue>, now: Time): (o: SaveOutcome)
      ensures session.None? ==> o == SaveOutcome(None, v, m, Some(DeleteCookie(settings.cookie)))
      ensures o.cookie.Some? <==> o.err.None?
      ensures o.err.Some? ==> o.stored == m
      ensures session.Some? ==>
        o.record.id == v.id && o.record.absoluteDeadline == v.absoluteDeadline
        && o.record.idleDeadline <= v.absoluteDeadline && o.record.idleDeadline <= now + settings.idleTimeout
        && (o.record.idleDeadline == v.absoluteDeadline || o.record.idleDeadline == now + settings.idleTimeout)
      ensures session.Some? && o.err.None? ==>
        codec.encode(session.value) == Success(o.record.data) && store.fails(SaveCall(v.id)) == None
        && o.stored == SaveInto(m, o.record, now)
        && o.cookie == Some(SetCookieFor(settings.cookie, v.id, o.record.idleDeadline, now))
      ensures session.Some? ==>
        (o.err.None? <==> codec.encode(session.value).Success? && store.fails(SaveCall(v.id)).None?)
      ensures session.Some? && codec.encode(session.value).Failure? ==> o.err == Some(codec.encode(session.value).error)
      ensures session.Some? && codec.encode(session.value).Success? && store.fails(SaveCall(v.id)).Some? ==>
        o.err == store.fails(SaveCall(v.id))
    {
      if session.None? then SaveOutcome(None, v, m, Some(DeleteCookie(settings.cookie)))
      else
        var idle := SavedIdleDeadline(now, settings.idleTimeout, v.absoluteDeadline);
        match codec.encode(session.value)
        case Failure(e) => SaveOutcome(Some(e), v.(idleDeadline := idle, data := []), m, None)
        case Success(b) =>
          var saved := v.(idleDeadline := idle, data := b);
          match store.fails(SaveCall(v.id))
          case Some(e) => SaveOutcome(Some(e), saved, m, None)
          case None => SaveOutcome(None, saved, SaveInto(m, saved, now), Some(SetCookieFor(settings.cookie, v.id, idle, now)))
    }

    /**
     * The session cookie goes out only for a record the store now holds
     * under the cookie's value (the idle timeout is positive, as
     * `NewMiddleware` makes it).
     */
    lemma CookieOnlyForStoredRecord(v: RecordValue, p: Payload, m: map<string, RecordValue>, now: Time)
      requires 0 < settings.idleTimeout && now <= v.absoluteDeadline
      requires SaveSpec(v, Some(p), m, now).cookie.Some?
      ensures var o := SaveSpec(v, Some(p), m, now);
        o.cookie.value.value == v.id && LoadFrom(o.stored, o.cookie.value.value, now) == Some(o.record)
    {
      var o := SaveSpec(v, Some(p), m, now);
      assert !Expired(o.record, now);
    }

    method Save(rec: Record, w: Response, now: Time) returns (err: Option<Error>)
      modifies rec, store.mem, w
      ensures var o := SaveSpec(old(rec.Value()), old(rec.session), old(store.mem.m), now);
        err == o.err && rec.Value() == o.record && store.mem.m == o.stored
        && w.cookies == old(w.cookies) + (if o.cookie.Some? then [o.cookie.value] else [])
      ensures rec.session == old(rec.session)
      ensures w.statuses == old(w.statuses) && w.body == old(w.body) && w.errors == old(w.errors)
    {
      if rec.session.None? {
        var cookie := settings.cookie.(maxAge := -1);
        w.SetCookie(cookie);
        return None;
      }
      rec.idleDeadline := now + settings.idleTimeout;
      if rec.absoluteDeadline < rec.idleDeadline {
        rec.idleDeadline := rec.absoluteDeadline;
      }
      var cookie := settings.cookie.(value := rec.id, maxAge := TruncSeconds(rec.idleDeadline - now));
      var data := codec.encode(rec.session.value);
      if data.Failure? {
        rec.data := [];
        return Some(data.error);
      }
      rec.data := data.value;
      err := store.Save(rec.Value(), now);
      if err.Some? {
        return err;
      }
      w.SetCookie(cookie);
      return None;
    }

    /** `Get`: the session value; a panic without the middleware, and the nil type assertion's panic after `Delete`. */
    method Get(h: Option<Record>) returns (r: Call<Payload>)
      ensures h.None? ==> r == Panics(MiddlewareNotUsed)
      ensures h.Some? && h.value.session.None? ==> r == Panics(NilSession)
      ensures h.Some? && h.value.session.Some? ==> r == Done(h.value.session.value)
    {
      if h.None? {
        return Panics(MiddlewareNotUsed);
      }
      if h.value.session.None? {
        return Panics(NilSession);
      }
      return Done(h.value.session.value);
    }

    /**
     * `Token`: the record's current ID. The same shape as `ID` of the
     * `httpsession` middleware; the two packages each define their own.
     */
    method Token(h: Option<Record>) returns (r: Call<string>)
      ensures h.None? ==> r == Panics(MiddlewareNotUsed)
      ensures h.Some? ==> r == Done(h.value.id)
    {
      if h.None? {
        return Panics(MiddlewareNotUsed);
      }
      return Done(h.value.id);
    }

    /** `Delete`: removes the record from the store at once; only then is the session cleared. */
    method Delete(h: Option<Record>) returns (r: Call<()>)
      modifies Attached(h), store.mem
      ensures h.None? ==> r == Panics(MiddlewareNotUsed) && store.mem.m == old(store.mem.m)
      ensures h.Some? ==>
        var err := store.fails(DeleteCall(old(h.value.id)));
        h.value.Value() == old(h.value.Value())
        && (err.Some? ==> r == Errored(err.value) && h.value.session == old(h.value.session) && store.mem.m == old(store.mem.m))
        && (err.None? ==> r == Done(()) && h.value.session == None && store.mem.m == old(store.mem.m) - {h.value.id})
    {
      if h.None? {
        return Panics(MiddlewareNotUsed);
      }
      var rec := h.value;
      var err := store.Delete(rec.id);
      if err.Some? {
        return Errored(err.value);
      }
      rec.session := None;
      return Done(());
    }

    /**
     * `renewID(id)`: removes the record under its old ID from the store;
     * only then does it take `id` and a new absolute deadline. The session
     * value stays.
     */
    method RenewTo(h: Option<Record>, id: string, now: Time) returns (r: Call<()>)
      modifies Attached(h), store.mem
      ensures h.None? ==> r == Panics(MiddlewareNotUsed) && store.mem.m == old(store.mem.m)
      ensures h.Some? ==>
        var err := store.fails(DeleteCall(old(h.value.id)));
        h.value.session == old(h.value.session) && h.value.idleDeadline == old(h.value.idleDeadline)
        && h.value.data == old(h.value.data)
        && (err.Some? ==> r == Errored(err.value) && h.value.Value() == old(h.value.Value()) && store.mem.m == old(store.mem.m))
        && (err.None? ==>
              r == Done(()) && store.mem.m == old(store.mem.m) - {old(h.value.id)}
              && h.value.id == id && h.value.absoluteDeadline == now + settings.absoluteTimeout)
    {
      if h.None? {
        return Panics(MiddlewareNotUsed);
      }
      var rec := h.value;
      var err := store.Delete(rec.id);
      if err.Some? {
        return Errored(err.value);
      }
      rec.id := id;
      rec.absoluteDeadline := now + settings.absoluteTimeout;
      return Done(());
    }

    /**
     * `Wrap(next).ServeHTTP(w, r)` for a request with `cookies`, whose
     * handler does `actions`; the clock reads `start` before the handler.
     */
    method Wrap(w: Response, cookies: seq<RequestCookie>, start: Time, randomID: string, actions: seq<Action>)
      returns (outcome: Outcome, ghost saveRuns: nat)
      modifies this, w, store.mem
      ensures active == old(active)
      ensures saveRuns <= 1
      ensures outcome.Served? ==> saveRuns == 1
      ensures outcome.Served? ==> !NoWrites(actions)
      ensures var id := if OfferedID(cookies, settings.cookie.name).Some? then OfferedID(cookies, settings.cookie.name).value else "";
        var r := LoadOrCreateSpec(id, old(store.mem.m), start);
        var resolved := if r.Loaded? then r.v.id else randomID;
        (outcome.LoadFailed? <==> r.LoadError?)
        && (r.LoadError? ==> outcome == LoadFailed(r.error) && w.errors == old(w.errors) + [r.error])
        && (outcome.Conflict? <==> !r.LoadError? && resolved in old(active))
        && (outcome.Conflict? ==> w.errors == old(w.errors) + [AnotherActiveSession])
      ensures outcome.LoadFailed? || outcome.Conflict? ==>
        saveRuns == 0 && store.mem.m == old(store.mem.m)
        && w.cookies == old(w.cookies) && w.statuses == old(w.statuses) && w.body == old(w.body)
      ensures NoGets(actions) && !outcome.LoadFailed? && !outcome.Conflict? ==>
        outcome == if NoWrites(actions) then Panicked(Unreachable) else Served
    {
      var id := "";
      var named := CookiesNamed(cookies, settings.cookie.name);
      if |named| == 1 {
        id := named[0].value;
      }
      var loaded := LoadOrCreate(id, start, randomID);
      if loaded.Failure? {
        w.HandleError(loaded.error);
        return LoadFailed(loaded.error), 0;
      }
      var rec := loaded.value;

      if rec.id in active {
        w.HandleError(AnotherActiveSession);
        return Conflict, 0;
      }
      var captured := rec.id;
      active := active + {captured};

      var panicked, wrote;
      panicked, wrote, saveRuns := Serve(w, rec, actions);
      active := active - {captured};
      if panicked.Some? {
        return Panicked(panicked.value), saveRuns;
      }
      if !wrote {
        return Panicked(Unreachable), saveRuns;
      }
      outcome := Served;
    }

    /**
     * The guarded part of the request, run while the record's ID is held in
     * `activeSession`: the handler runs on a `sessionWriter`; `wrote` tells
     * whether one of its writes ran `save`.
     */
    method Serve(w: Response, rec: Record, actions: seq<Action>) returns (panicked: Option<string>, wrote: bool, ghost saveRuns: nat)
      requires rec.id in active
      modifies w, rec, store.mem
      ensures saveRuns == (if wrote then 1 else 0)
      ensures NoWrites(actions) ==> !wrote
      ensures panicked.None? && !NoWrites(actions) ==> wrote
      ensures NoGets(actions) ==> panicked.None?
    {
      var sw := new SessionWriter(w, rec, this);
      panicked := RunHandler(sw, actions);
      saveRuns := sw.runs;
      wrote := sw.saved || sw.failed;
    }

    /** `next.ServeHTTP(sw, r)`: the handler's actions until the end or the first panic. */
    method RunHandler(sw: SessionWriter, actions: seq<Action>) returns (panicked: Option<string>)
      requires sw.mw == this && sw.Valid()
      modifies sw, sw.rec, sw.w, store.mem
      ensures sw.Valid()
      ensures old(sw.saved) ==> sw.saved
      ensures old(sw.failed) ==> sw.failed
      ensures NoWrites(actions) ==> sw.saved == old(sw.saved) && sw.failed == old(sw.failed)
      ensures panicked.None? && !NoWrites(actions) ==> sw.saved || sw.failed
      ensures panicked.Some? ==> exists i :: 0 <= i < |actions| && actions[i].step.GetStep?
    {
      var i := 0;
      while i < |actions|
        invariant 0 <= i <= |actions|
        invariant sw.Valid()
        invariant old(sw.saved) ==> sw.saved
        invariant old(sw.failed) ==> sw.failed
        invariant NoWrites(actions) ==> sw.saved == old(sw.saved) && sw.failed == old(sw.failed)
        invariant (exists j :: 0 <= j < i && Writes(actions[j].step)) ==> sw.saved || sw.failed
      {
        var a := actions[i];
        match a.step {
        case GetStep(update) =>
          var r := Get(Some(sw.rec));
          if r.Panics? {
            return Some(r.message);
          }
          if update.Some? {
            sw.rec.session := Some(update.value);
          }
        case TokenStep =>
          var _ := Token(Some(sw.rec));
        case DeleteStep =>
          var _ := Delete(Some(sw.rec));
        case RenewStep(random) =>
          var _ := RenewTo(Some(sw.rec), random, a.at);
        case RenewIDStep(id) =>
          var _ := RenewTo(Some(sw.rec), id, a.at);
        case WriteStep(b) =>
          var _, _ := sw.Write(b, a.at);
        case WriteHeaderStep(code) =>
          sw.WriteHeader(code, a.at);
        }
        i := i + 1;
      }
      return None;
    }
  }

  /**
   * `sessionWriter`: the first `Write` or `WriteHeader` runs `save`; after a
   * failed save nothing more reaches the client. `runs` counts the runs of
   * `save`.
   */
  class SessionWriter {
    const w: Response
    const rec: Record
    const mw: Middleware
    var saved: bool
    var failed: bool
    ghost var runs: nat

    ghost predicate Valid()
      reads this
    {
      !(saved && failed) && runs == (if saved || failed then 1 else 0)
    }

    constructor (w: Response, rec: Record, mw: Middleware)
      ensures this.w == w && this.rec == rec && this.mw == mw
      ensures !saved && !failed && Valid()
    {
      this.w := w;
      this.rec := rec;
      this.mw := mw;
      saved := false;
      failed := false;
      runs := 0;
    }

    /** `Write(b)` */
    method Write(b: Bytes, now: Time) returns (n: int, err: Option<Error>)
      requires Valid()
      modifies this, w, rec, mw.store.mem
      ensures Valid() && (saved || failed)
      ensures old(failed) ==>
        failed && n == |b| && err == None && unchanged(w, rec) && mw.store.mem.m == old(mw.store.mem.m)
      ensures old(saved) ==>
        saved && n == |b| && err == None && unchanged(rec) && mw.store.mem.m == old(mw.store.mem.m)
        && w.body == old(w.body) + b && w.cookies == old(w.cookies) && w.errors == old(w.errors)
      ensures !old(saved) && !old(failed) ==>
        var o := mw.SaveSpec(old(rec.Value()), old(rec.session), old(mw.store.mem.m), now);
        rec.Value() == o.record && rec.session == old(rec.session) && mw.store.mem.m == o.stored
        && n == |b| && err == None && w.statuses == old(w.statuses)
        && w.cookies == old(w.cookies) + (if o.cookie.Some? then [o.cookie.value] else [])
        && (o.err.Some? ==> failed && w.errors == old(w.errors) + [o.err.value] && w.body == old(w.body))
        && (o.err.None? ==> saved && w.errors == old(w.errors) && w.body == old(w.body) + b)
    {
      if failed {
        return |b|, None;
      }
      if !saved {
        var e := mw.Save(rec, w, now);
        runs := runs + 1;
        if e.Some? {
          w.HandleError(e.value);
          failed := true;
          return |b|, None;
        }
        saved := true;
      }
      n, err := w.Write(b);
    }

    /** `WriteHeader(code)` */
    method WriteHeader(code: int, now: Time)
      requires Valid()
      modifies this, w, rec, mw.store.mem
      ensures Valid() && (saved || failed)
      ensures old(failed) ==> failed && unchanged(w, rec) && mw.store.mem.m == old(mw.store.mem.m)
      ensures old(saved) ==>
        saved && unchanged(rec) && mw.store.mem.m == old(mw.store.mem.m)
        && w.statuses == old(w.statuses) + [code] && w.cookies == old(w.cookies)
        && w.body == old(w.body) && w.errors == old(w.errors)
      ensures !old(saved) && !old(failed) ==>
        var o := mw.SaveSpec(old(rec.Value()), old(rec.session), old(mw.store.mem.m), now);
        rec.Value() == o.record && rec.session == old(rec.session) && mw.store.mem.m == o.stored
        && w.body == old(w.body)
        && w.cookies == old(w.cookies) + (if o.cookie.Some? then [o.cookie.value] else [])
        && (o.err.Some? ==> failed && w.errors == old(w.errors) + [o.err.value] && w.statuses == old(w.statuses))
        && (o.err.None? ==> saved && w.errors == old(w.errors) && w.statuses == old(w.statuses) + [code])
    {
      if failed {
        return;
      }
      if !saved {
        var e := mw.Save(rec, w, now);
        runs := runs + 1;
        if e.Some? {
          w.HandleError(e.value);
          failed := true;
          return;
        }
        saved := true;
      }
      w.WriteHeader(code);
    }
  }
}
