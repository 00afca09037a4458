/**
 * The httpsession middleware: per request it resolves the session cookie,
 * loads the record or creates a fresh one, guards the session ID against
 * concurrent use, runs the handler behind a writer that saves the session
 * before the first byte or status goes out, and saves after the handler
 * when nothing was written.
 *
 * Every clock reading is a `Time` parameter; a random ID is a string
 * parameter. The handler is a script of `Action`s.
 */
module HttpSession {
  import opened Wrappers
  import opened Clock
  import opened GoStrings
  import opened Records
  import opened Memory
  import opened Stores

  const ActiveSessionExists := "httpsession: active session alreadly exists"
  const MiddlewareNotUsed := "httpsession: middleware was not used"
  const SessionDeleted := "httpsession: session alreadly deleted"
  const PopulateLength := "Populate: args must have non-zero even length"

  /** The `%T` of `*T`, the session pointer type. */
  const SessionTypeName := "*T"

  /** The exported settings of a `Middleware`. */
  datatype Settings = Settings(idleTimeout: Duration, absoluteTimeout: Duration, cookie: Cookie)

  /** What `NewMiddleware` sets. */
  const DefaultSettings := Settings(24 * Hour, 7 * 24 * Hour,
                                    Cookie("id", "", "/", "", 0, true, true, SameSiteLaxMode, false))

  /**
   * The cookie of a session just saved at `now` never outlives it: its
   * `MaxAge` covers neither more than the idle timeout nor more than is
   * left of the absolute deadline.
   */
  lemma SavedCookieLifetime(template: Cookie, id: string, now: Time, idleTimeout: Duration, absoluteDeadline: Time)
    requires now <= absoluteDeadline && 0 <= idleTimeout
    ensures var c := SetCookieFor(template, id, SavedIdleDeadline(now, idleTimeout, absoluteDeadline), now);
      c.name == template.name && c.value == id && 0 <= c.maxAge
      && c.maxAge * Second <= idleTimeout && c.maxAge * Second <= absoluteDeadline - now
  {
    var d := SavedIdleDeadline(now, idleTimeout, absoluteDeadline) - now;
    assert 0 <= d <= idleTimeout && d <= absoluteDeadline - now;
    assert TruncSeconds(d) * Second <= d;
  }

  /** Under the default settings a fresh session saved when created idles out after 24 hours, and its cookie says 86400 seconds. */
  lemma DefaultFirstSave(now: Time)
    ensures SavedIdleDeadline(now, DefaultSettings.idleTimeout, now + DefaultSettings.absoluteTimeout) == now + 24 * Hour
    ensures SetCookieFor(DefaultSettings.cookie, "", now + 24 * Hour, now).maxAge == 86400
  {
    assert TruncSeconds(24 * Hour) == 86400;
  }

  /** How a save of the request's record ended when it did not fail. */
  datatype Saved = RecordDeleted | RecordSaved

  /** The result of `saveRecord`, the record afterwards, and the store's map afterwards. */
  datatype SaveOutcome = SaveOutcome(result: Result<Saved, Error>, record: RecordValue, stored: map<string, RecordValue>)

  /** What the handler did, in order, each at its own clock reading. */
  datatype Step =
    | GetStep(update: Option<Payload>)
    | IDStep
    | DeleteStep
    | RenewStep(id: string, random: string)
    | WriteStep(b: Bytes)
    | WriteHeaderStep(code: int)

  datatype Action = Action(at: Time, step: Step)

  predicate Writes(s: Step) {
    s.WriteStep? || s.WriteHeaderStep?
  }

  /** The handler writes no body and no status. */
  predicate NoWrites(actions: seq<Action>) {
    forall i :: 0 <= i < |actions| ==> !Writes(actions[i].step)
  }

  /** What the store lookup at the start of a request gives. */
  datatype Lookup = LookupFailed(error: Error) | Found(v: RecordValue) | NotFound

  /** How a request ended. */
  datatype Outcome = LoadFailed(error: Error) | Conflict | DecodeFailed(error: Error) | Panicked(message: string) | Served

  /** An argument of `Populate`, by its dynamic type. */
  datatype Arg = StringArg(s: string) | SessionArg(p: Payload) | OtherArg(typeName: string)

  function TypeName(a: Arg): string {
    match a
    case StringArg(_) => "string"
    case SessionArg(_) => SessionTypeName
    case OtherArg(t) => t
  }

  /**
   * The state a handler left behind: the request's record and session, the
   * store's map, what the response holds, and whether a write already ran
   * the save protocol.
   */
  datatype Snapshot = Snapshot(record: RecordValue, session: Option<Payload>, stored: map<string, RecordValue>,
                               cookies: seq<Cookie>, statuses: seq<int>, body: Bytes, errors: seq<Error>, wrote: bool)

  /** The records a `Populate` call saved, and the panic that stopped it, if any. */
  datatype PopulateRun = PopulateRun(stored: map<string, RecordValue>, panicked: Option<string>)

  /** The request's record as the context carries it; none when the middleware did not run. */
  function Attached(h: Option<Record>): set<Record> {
    if h.Some? then {h.value} else {}
  }

  class Middleware {
    const settings: Settings
    const store: Store
    /** `json.Marshal` and `json.Unmarshal` of the session value. */
    const encode: Payload -> Result<Bytes, Error>
    const decode: Bytes -> Result<Payload, Error>
    /** `activeSession`: the IDs of the sessions a request is serving. */
    var active: set<string>

    /** `NewMiddleware()`: default settings over a fresh memory store. */
    constructor (encode: Payload -> Result<Bytes, Error>, decode: Bytes -> Result<Payload, Error>)
      ensures settings == DefaultSettings && fresh(store) && fresh(store.mem)
      ensures store.mem.m == map[] && forall c :: store.fails(c) == None
      ensures this.encode == encode && this.decode == decode && active == {}
    {
      settings := DefaultSettings;
      store := new Store(NeverFails);
      this.encode := encode;
      this.decode := decode;
      active := {};
    }

    /** A middleware whose exported fields were set by the caller. */
    constructor Configured(settings: Settings, store: Store,
                           encode: Payload -> Result<Bytes, Error>, decode: Bytes -> Result<Payload, Error>)
      ensures this.settings == settings && this.store == store
      ensures this.encode == encode && this.decode == decode && active == {}
    {
      this.settings := settings;
      this.store := store;
      this.encode := encode;
      this.decode := decode;
      active := {};
    }

    /**
     * `saveRecord`: a deleted record is reported as such and nothing is
     * stored; otherwise the idle deadline becomes the earlier of
     * now + IdleTimeout and the absolute deadline, the session is encoded
     * into `Data` and the record saved.
     */
    function SaveRecordSpec(v: RecordValue, session: Option<Payload>, m: map<string, RecordValue>, now: Time): (o: SaveOutcome)
      ensures session.None? ==> o == SaveOutcome(Success(RecordDeleted), v, m)
      ensures session.Some? ==>
        o.record.id == v.id && o.record.absoluteDeadline == v.absoluteDeadline
        && o.record.idleDeadline <= v.absoluteDeadline && o.record.idleDeadline <= now + settings.idleTimeout
        && (o.record.idleDeadline == v.absoluteDeadline || o.record.idleDeadline == now + settings.idleTimeout)
      ensures o.result.Failure? ==> o.stored == m
      ensures session.Some? && o.result.Success? ==>
        o.result.value == RecordSaved && encode(session.value) == Success(o.record.data)
        && store.fails(SaveCall(v.id)) == None && o.stored == SaveInto(m, o.record, now)
      ensures session.Some? ==>
        (o.result.Success? <==> encode(session.value).Success? && store.fails(SaveCall(v.id)).None?)
      ensures session.Some? && encode(session.value).Failure? ==> o.result == Failure(encode(session.value).error)
      ensures session.Some? && encode(session.value).Success? && store.fails(SaveCall(v.id)).Some? ==>
        o.result == Failure(store.fails(SaveCall(v.id)).value)
    {
      if session.None? then SaveOutcome(Success(RecordDeleted), v, m)
      else
        var idle := SavedIdleDeadline(now, settings.idleTimeout, v.absoluteDeadline);
        match encode(session.value)
        case Failure(e) => SaveOutcome(Failure(e), v.(idleDeadline := idle, data := []), m)
        case Success(b) =>
          var saved := v.(idleDeadline := idle, data := b);
          match store.fails(SaveCall(v.id))
          case Some(e) => SaveOutcome(Failure(e), saved, m)
          case None => SaveOutcome(Success(RecordSaved), saved, SaveInto(m, saved, now))
    }

    /** The cookie `saveSession` sets after a save at `now` that did not fail. */
    function CookieAfter(s: Saved, v: RecordValue, now: Time): (c: Cookie)
      ensures c.name == settings.cookie.name && c.path == settings.cookie.path && c.domain == settings.cookie.domain
      ensures s == RecordDeleted ==> c.maxAge < 0 && c.value == settings.cookie.value
      ensures s != RecordDeleted ==>
        c.value == v.id && (now <= v.idleDeadline ==> 0 <= c.maxAge && c.maxAge * Second <= v.idleDeadline - now)
    {
      if s == RecordDeleted then DeleteCookie(settings.cookie) else SetCookieFor(settings.cookie, v.id, v.idleDeadline, now)
    }

    /**
     * A session saved at `now` with a non-negative idle timeout, before its
     * absolute deadline, loads back as saved until its new idle deadline.
     */
    lemma SavedSessionLoads(v: RecordValue, p: Payload, m: map<string, RecordValue>, now: Time, later: Time)
      requires 0 <= settings.idleTimeout && now <= v.absoluteDeadline
      requires SaveRecordSpec(v, Some(p), m, now).result.Success?
      requires later <= SaveRecordSpec(v, Some(p), m, now).record.idleDeadline
      ensures var o := SaveRecordSpec(v, Some(p), m, now);
        LoadFrom(o.stored, v.id, later) == Some(o.record) && o.record.idleDeadline <= o.record.absoluteDeadline
    {
      var o := SaveRecordSpec(v, Some(p), m, now);
      assert !Expired(o.record, now);
      SaveThenLoad(m, o.record, now, later);
    }

    /** With a zero absolute timeout a fresh session idles out at once, yet the save still stores it. */
    lemma ZeroAbsoluteTimeout(v: RecordValue, p: Payload, m: map<string, RecordValue>, now: Time)
      requires 0 <= settings.idleTimeout && v.absoluteDeadline == now
      requires SaveRecordSpec(v, Some(p), m, now).result.Success?
      ensures var o := SaveRecordSpec(v, Some(p), m, now);
        o.record.idleDeadline == now && LoadFrom(o.stored, v.id, now) == Some(o.record)
    {
      var o := SaveRecordSpec(v, Some(p), m, now);
      DeadlineNowIsLive(m, o.record, now);
    }

    /** `newRecord()`: a new ID, zero idle deadline, absolute deadline now + AbsoluteTimeout, a zero session. */
    method NewRecord(randomID: string, now: Time) returns (rec: Record)
      ensures fresh(rec)
      ensures rec.id == randomID && rec.idleDeadline == ZeroTime && rec.absoluteDeadline == now + settings.absoluteTimeout
      ensures rec.data == [] && rec.session == Some(ZeroPayload)
    {
      rec := new Record(randomID, ZeroTime, now + settings.absoluteTimeout, [], Some(ZeroPayload));
    }

    method SaveRecord(rec: Record, now: Time) returns (res: Result<Saved, Error>)
      modifies rec, store.mem
      ensures var o := SaveRecordSpec(old(rec.Value()), old(rec.session), old(store.mem.m), now);
        res == o.result && rec.Value() == o.record && store.mem.m == o.stored
      ensures rec.session == old(rec.session)
    {
      if rec.session.None? {
        return Success(RecordDeleted);
      }
      rec.idleDeadline := now + settings.idleTimeout;
      if rec.absoluteDeadline < rec.idleDeadline {
        rec.idleDeadline := rec.absoluteDeadline;
      }
      var data := encode(rec.session.value);
      if data.Failure? {
        rec.data := [];
        return Failure(data.error);
      }
      rec.data := data.value;
      var err := store.Save(rec.Value(), now);
      if err.Some? {
        return Failure(err.value);
      }
      return Success(RecordSaved);
    }

    /** `saveSession`: `saveRecord`, then the delete cookie or the session cookie, but no cookie if the save failed. */
    method SaveSession(rec: Record, w: Response, now: Time) returns (err: Option<Error>)
      modifies rec, store.mem, w
      ensures var o := SaveRecordSpec(old(rec.Value()), old(rec.session), old(store.mem.m), now);
        rec.Value() == o.record && store.mem.m == o.stored
        && (o.result.Failure? ==> err == Some(o.result.error) && w.cookies == old(w.cookies))
        && (o.result.Success? ==> err == None && w.cookies == old(w.cookies) + [CookieAfter(o.result.value, o.record, now)])
      ensures rec.session == old(rec.session)
      ensures w.statuses == old(w.statuses) && w.body == old(w.body) && w.errors == old(w.errors)
    {
      var res := SaveRecord(rec, now);
      if res.Failure? {
        return Some(res.error);
      }
      if res.value == RecordDeleted {
        w.SetCookie(DeleteCookie(settings.cookie));
      } else {
        w.SetCookie(SetCookieFor(settings.cookie, rec.id, rec.idleDeadline, now));
      }
      return None;
    }

    /** `Get`: the session value; a panic without the middleware or after `Delete`. */
    method Get(h: Option<Record>) returns (r: Call<Payload>)
      ensures h.None? ==> r == Panics(MiddlewareNotUsed)
      ensures h.Some? && h.value.session.None? ==> r == Panics(SessionDeleted)
      ensures h.Some? && h.value.session.Some? ==> r == Done(h.value.session.value)
    {
      if h.None? {
        return Panics(MiddlewareNotUsed);
      }
      if h.value.session.None? {
        return Panics(SessionDeleted);
      }
      return Done(h.value.session.value);
    }

    /** `ID`: the record's current ID. */
    method ID(h: Option<Record>) returns (r: Call<string>)
      ensures h.None? ==> r == Panics(MiddlewareNotUsed)
      ensures h.Some? ==> r == Done(h.value.id)
    {
      if h.None? {
        return Panics(MiddlewareNotUsed);
      }
      return Done(h.value.id);
    }

    /** `Delete`: removes the record from the store at once; only then is the session cleared. */
    method Delete(h: Option<Record>) returns (r: Call<()>)
      modifies Attached(h), store.mem
      ensures h.None? ==> r == Panics(MiddlewareNotUsed) && store.mem.m == old(store.mem.m)
      ensures h.Some? ==>
        var err := store.fails(DeleteCall(old(h.value.id)));
        h.value.Value() == old(h.value.Value())
        && (err.Some? ==> r == Errored(err.value) && h.value.session == old(h.value.session) && store.mem.m == old(store.mem.m))
        && (err.None? ==> r == Done(()) && h.value.session == None && store.mem.m == old(store.mem.m) - {h.value.id})
    {
      if h.None? {
        return Panics(MiddlewareNotUsed);
      }
      var rec := h.value;
      var err := store.Delete(rec.id);
      if err.Some? {
        return Errored(err.value);
      }
      rec.session := None;
      return Done(());
    }

    /**
     * `Renew`: removes the record under its old ID from the store; only then
     * does it take the new ID (a random one for "") and a new absolute
     * deadline. The session value stays.
     */
    method Renew(h: Option<Record>, id: string, random: string, now: Time) returns (r: Call<()>)
      modifies Attached(h), store.mem
      ensures h.None? ==> r == Panics(MiddlewareNotUsed) && store.mem.m == old(store.mem.m)
      ensures h.Some? ==>
        var err := store.fails(DeleteCall(old(h.value.id)));
        h.value.session == old(h.value.session) && h.value.idleDeadline == old(h.value.idleDeadline)
        && h.value.data == old(h.value.data)
        && (err.Some? ==> r == Errored(err.value) && h.value.Value() == old(h.value.Value()) && store.mem.m == old(store.mem.m))
        && (err.None? ==>
              r == Done(()) && store.mem.m == old(store.mem.m) - {old(h.value.id)}
              && h.value.id == (if id == "" then random else id)
              && h.value.absoluteDeadline == now + settings.absoluteTimeout)
    {
      if h.None? {
        return Panics(MiddlewareNotUsed);
      }
      var rec := h.value;
      var err := store.Delete(rec.id);
      if err.Some? {
        return Errored(err.value);
      }
      var newID := id;
      if newID == "" {
        newID := random;
      }
      rec.id := newID;
      rec.absoluteDeadline := now + settings.absoluteTimeout;
      return Done(());
    }

    /** `Populate` from the `k`-th pair on: each pair saved as a fresh record with that ID and session. */
    function PopulateFrom(m: map<string, RecordValue>, args: seq<Arg>, k: nat, now: Time): (r: PopulateRun)
      requires 2 * k <= |args|
      ensures r.panicked.None? ==> forall j :: k <= j < |args| / 2 ==> args[2 * j].StringArg? && args[2 * j + 1].SessionArg?
      decreases |args| - 2 * k
    {
      if |args| <= 2 * k + 1 then PopulateRun(m, None)
      else
        var argPos := 2 * k + 1;
        if !args[2 * k].StringArg? then
          PopulateRun(m, Some("Populate: arg " + Decimal(argPos) + " expected string but got " + TypeName(args[2 * k])))
        else if !args[2 * k + 1].SessionArg? then
          PopulateRun(m, Some("Populate: arg " + Decimal(argPos + 1) + " expected " + SessionTypeName
                              + " but got " + TypeName(args[2 * k + 1])))
        else
          var v := RecordValue(args[2 * k].s, ZeroTime, now + settings.absoluteTimeout, []);
          var o := SaveRecordSpec(v, Some(args[2 * k + 1].p), m, now);
          if o.result.Failure? then PopulateRun(m, Some("Populate: " + o.result.error))
          else PopulateFrom(o.stored, args, k + 1, now)
    }

    /** `Populate` from the `k`-th pair on leaves alone every key that no later pair names. */
    lemma {:induction false} PopulateKeepsOthers(m: map<string, RecordValue>, args: seq<Arg>, k: nat, now: Time, key: string)
      requires 2 * k <= |args|
      requires forall j :: k <= j < |args| / 2 ==> args[2 * j] != StringArg(key)
      ensures var run := PopulateFrom(m, args, k, now);
        (key in run.stored <==> key in m) && (key in m ==> run.stored[key] == m[key])
      decreases |args| - 2 * k
    {
      if |args| > 2 * k + 1 && args[2 * k].StringArg? && args[2 * k + 1].SessionArg? {
        var v := RecordValue(args[2 * k].s, ZeroTime, now + settings.absoluteTimeout, []);
        var o := SaveRecordSpec(v, Some(args[2 * k + 1].p), m, now);
        if o.result.Success? {
          SaveKeepsOthers(m, o.record, now, key);
          PopulateKeepsOthers(o.stored, args, k + 1, now, key);
        }
      }
    }

    /**
     * In a `Populate` that does not panic, the last pair with a given ID
     * leaves under that ID a fresh record: its idle deadline the earlier of
     * now + IdleTimeout and now + AbsoluteTimeout, its data the encoded
     * session; the store keeps it when that deadline has not passed.
     */
    lemma {:induction false} PopulateStoresPair(m: map<string, RecordValue>, args: seq<Arg>, k: nat, now: Time, j: nat)
      requires 2 * k <= |args| && k <= j && 2 * j + 1 < |args|
      requires PopulateFrom(m, args, k, now).panicked.None?
      requires forall i :: j < i < |args| / 2 ==> args[2 * i] != args[2 * j]
      ensures args[2 * j].StringArg? && args[2 * j + 1].SessionArg?
      ensures var id := args[2 * j].s;
        var abs := now + settings.absoluteTimeout;
        var idle := SavedIdleDeadline(now, settings.idleTimeout, abs);
        var stored := PopulateFrom(m, args, k, now).stored;
        now <= idle ==>
          id in stored && stored[id] == RecordValue(id, idle, abs, stored[id].data)
          && encode(args[2 * j + 1].p) == Success(stored[id].data)
      decreases |args| - 2 * k
    {
      var v := RecordValue(args[2 * k].s, ZeroTime, now + settings.absoluteTimeout, []);
      var o := SaveRecordSpec(v, Some(args[2 * k + 1].p), m, now);
      assert PopulateFrom(m, args, k, now) == PopulateFrom(o.stored, args, k + 1, now);
      if j == k {
        var id := args[2 * j].s;
        forall i | k + 1 <= i < |args| / 2 ensures args[2 * i] != StringArg(id) {
          assert args[2 * i] != args[2 * j];
        }
        PopulateKeepsOthers(o.stored, args, k + 1, now, id);
      } else {
        PopulateStoresPair(o.stored, args, k + 1, now, j);
      }
    }

    /**
     * `Populate(idSessionPairs...)`: an odd or empty argument list panics
     * before anything is saved; otherwise the pairs are saved in order until
     * one has the wrong types or fails to save.
     */
    method Populate(args: seq<Arg>, now: Time) returns (r: Call<()>)
      modifies store.mem
      ensures |args| == 0 || |args| % 2 != 0 ==> r == Panics(PopulateLength) && store.mem.m == old(store.mem.m)
      ensures |args| > 0 && |args| % 2 == 0 ==>
        var run := PopulateFrom(old(store.mem.m), args, 0, now);
        store.mem.m == run.stored && r == (if run.panicked.Some? then Panics(run.panicked.value) else Done(()))
    {
      if |args| <= 0 || |args| % 2 != 0 {
        return Panics(PopulateLength);
      }
      var argPos := 1;
      var k := 0;
      while 2 * k < |args|
        invariant 0 <= k && 2 * k <= |args| && argPos == 2 * k + 1
        invariant PopulateFrom(store.mem.m, args, k, now) == PopulateFrom(old(store.mem.m), args, 0, now)
        decreases |args| - 2 * k
      {
        var panic := SavePair(args, k, argPos, now);
        if panic.Some? {
          return Panics(panic.value);
        }
        argPos := argPos + 2;
        k := k + 1;
      }
      return Done(());
    }

    /**
     * One turn of `Populate`'s loop, on the `k`-th pair, numbered `argPos`
     * in messages: the panic it raises, or none once the pair is saved.
     */
    method SavePair(args: seq<Arg>, k: nat, argPos: nat, now: Time) returns (panic: Option<string>)
      requires 2 * k + 1 < |args| && argPos == 2 * k + 1
      modifies store.mem
      ensures var run := PopulateFrom(old(store.mem.m), args, k, now);
        if panic.Some? then run == PopulateRun(store.mem.m, panic)
        else PopulateFrom(store.mem.m, args, k + 1, now) == run
    {
      var id := args[2 * k];
      if !id.StringArg? {
        return Some("Populate: arg " + Decimal(argPos) + " expected string but got " + TypeName(id));
      }
      var session := args[2 * k + 1];
      if !session.SessionArg? {
        return Some("Populate: arg " + Decimal(argPos + 1) + " expected " + SessionTypeName
                    + " but got " + TypeName(session));
      }
      var record := NewRecord(id.s, now);
      record.id := id.s;
      record.session := Some(session.p);
      var res := SaveRecord(record, now);
      if res.Failure? {
        return Some("Populate: " + res.error);
      }
      return None;
    }

    /** The store lookup of a request: only a single cookie with the configured name is looked up. */
    function LookupSpec(cookies: seq<RequestCookie>, m: map<string, RecordValue>, now: Time): (l: Lookup)
      ensures OfferedID(cookies, settings.cookie.name).None? ==> l == NotFound
      ensures var id := OfferedID(cookies, settings.cookie.name);
        l.LookupFailed? <==> id.Some? && store.fails(LoadCall(id.value)).Some?
      ensures l.LookupFailed? ==> store.fails(LoadCall(OfferedID(cookies, settings.cookie.name).value)) == Some(l.error)
      ensures var id := OfferedID(cookies, settings.cookie.name);
        l.Found? <==> id.Some? && store.fails(LoadCall(id.value)).None? && LoadFrom(m, id.value, now).Some?
      ensures l.Found? ==>
        var id := OfferedID(cookies, settings.cookie.name);
        id.Some? && store.fails(LoadCall(id.value)) == None && LoadFrom(m, id.value, now) == Some(l.v)
    {
      match OfferedID(cookies, settings.cookie.name)
      case None => NotFound
      case Some(id) =>
        match store.fails(LoadCall(id))
        case Some(e) => LookupFailed(e)
        case None =>
          match LoadFrom(m, id, now)
          case None => NotFound
          case Some(v) => Found(v)
    }

    /**
     * A request with exactly one cookie of the session's name, whose `Load`
     * does not fail and finds a live record, is served that record.
     */
    lemma SingleCookieFindsRecord(cookies: seq<RequestCookie>, i: nat, m: map<string, RecordValue>, now: Time)
      requires i < |cookies| && settings.cookie.name != "" && cookies[i].name == settings.cookie.name
      requires forall j :: 0 <= j < |cookies| && j != i ==> cookies[j].name != settings.cookie.name
      requires store.fails(LoadCall(cookies[i].value)) == None && LoadFrom(m, cookies[i].value, now).Some?
      ensures LookupSpec(cookies, m, now) == Found(LoadFrom(m, cookies[i].value, now).value)
    {
      OneNamedCookie(cookies, settings.cookie.name, i);
    }

    /**
     * What follows the handler when it returned without panicking: unless a
     * write already ran the save protocol, the record is saved at `end`
     * with no cookie set, and a failed save goes to the error handler.
     */
    function AfterHandler(s: Snapshot, end: Time): (a: Snapshot)
      ensures s.wrote ==> a == s
      ensures a.cookies == s.cookies && a.statuses == s.statuses && a.body == s.body
      ensures a.session == s.session && a.wrote == s.wrote
    {
      if s.wrote then s
      else
        var o := SaveRecordSpec(s.record, s.session, s.stored, end);
        s.(record := o.record, stored := o.stored,
           errors := if o.result.Failure? then s.errors + [o.result.error] else s.errors)
    }

    /**
     * When the handler wrote nothing and left a session that encodes and
     * saves, the post-handler save reports nothing and the session loads
     * back as saved until its new idle deadline.
     */
    lemma AfterHandlerSaves(s: Snapshot, end: Time, later: Time)
      requires !s.wrote && s.session.Some? && 0 <= settings.idleTimeout && end <= s.record.absoluteDeadline
      requires encode(s.session.value).Success? && store.fails(SaveCall(s.record.id)) == None
      requires later <= AfterHandler(s, end).record.idleDeadline
      ensures var a := AfterHandler(s, end);
        a.errors == s.errors && a.record.data == encode(s.session.value).value
        && LoadFrom(a.stored, s.record.id, later) == Some(a.record)
    {
      SavedSessionLoads(s.record, s.session.value, s.stored, end, later);
    }

    /** After a handler that deleted its session and wrote nothing, the post-handler save stores and reports nothing. */
    lemma AfterHandlerOfDeleted(s: Snapshot, end: Time)
      requires s.session.None?
      ensures AfterHandler(s, end).stored == s.stored && AfterHandler(s, end).errors == s.errors
    {
    }

    /**
     * When the handler wrote nothing and the save fails, the store is left
     * as the handler left it and exactly that error goes to the error handler.
     */
    lemma AfterHandlerReportsFailure(s: Snapshot, end: Time)
      requires !s.wrote && s.session.Some?
      requires encode(s.session.value).Failure? || store.fails(SaveCall(s.record.id)).Some?
      ensures var a := AfterHandler(s, end);
        var e := if encode(s.session.value).Failure? then encode(s.session.value).error
                 else store.fails(SaveCall(s.record.id)).value;
        a.stored == s.stored && a.errors == s.errors + [e]
    {
    }

    /**
     * The state the handler starts from: the loaded record with its decoded
     * session, or a `newRecord` under `randomID` with the zero session; the
     * store and the response as the request found them, and no write yet.
     */
    function HandlerStart(l: Lookup, randomID: string, start: Time, m: map<string, RecordValue>,
                          cookies: seq<Cookie>, statuses: seq<int>, body: Bytes, errors: seq<Error>): Snapshot
    {
      if l.Found? then
        var session := if decode(l.v.data).Success? then Some(decode(l.v.data).value) else None;
        Snapshot(l.v, session, m, cookies, statuses, body, errors, false)
      else
        Snapshot(RecordValue(randomID, ZeroTime, start + settings.absoluteTimeout, []), Some(ZeroPayload),
                 m, cookies, statuses, body, errors, false)
    }

    /**
     * A request that offers no session cookie and whose handler does
     * nothing ends with a fresh record stored under `randomID`, holding the
     * encoded zero session and loadable at the end of the request; no
     * error is reported and no cookie is set.
     */
    lemma UntouchedFreshRequestSaved(cookies: seq<RequestCookie>, m: map<string, RecordValue>, start: Time, randomID: string,
                                     end: Time, cs: seq<Cookie>, st: seq<int>, b: Bytes, es: seq<Error>)
      requires OfferedID(cookies, settings.cookie.name).None?
      requires 0 <= settings.idleTimeout && end <= start + settings.absoluteTimeout
      requires encode(ZeroPayload).Success? && store.fails(SaveCall(randomID)) == None
      ensures var a := AfterHandler(HandlerStart(LookupSpec(cookies, m, start), randomID, start, m, cs, st, b, es), end);
        a.record.id == randomID && a.record.data == encode(ZeroPayload).value
        && LoadFrom(a.stored, randomID, end) == Some(a.record)
        && a.errors == es && a.cookies == cs
    {
      var s := HandlerStart(LookupSpec(cookies, m, start), randomID, start, m, cs, st, b, es);
      assert s.record == RecordValue(randomID, ZeroTime, start + settings.absoluteTimeout, []);
      AfterHandlerSaves(s, end, end);
    }

    /**
     * `Handler(next).ServeHTTP(w, r)` for a request with `cookies`, whose
     * handler does `actions`; the clock reads `start` before the handler
     * and `end` after it.
     */
    method ServeHTTP(w: Response, cookies: seq<RequestCookie>, start: Time, randomID: string,
                     actions: seq<Action>, end: Time)
      returns (outcome: Outcome, ghost saveRuns: nat, ghost started: Snapshot, ghost handled: Snapshot)
      modifies this, w, store.mem
      ensures active == old(active)
      ensures saveRuns <= 1
      ensures outcome.Served? ==> saveRuns == 1
      ensures var l := LookupSpec(cookies, old(store.mem.m), start);
        var id := if l.Found? then l.v.id else randomID;
        (outcome.LoadFailed? <==> l.LookupFailed?)
        && (outcome.Conflict? <==> !l.LookupFailed? && id in old(active))
        && (outcome.DecodeFailed? <==> l.Found? && id !in old(active) && decode(l.v.data).Failure?)
        && (l.LookupFailed? ==> outcome == LoadFailed(l.error))
        && (outcome.Conflict? ==> w.errors == old(w.errors) + [ActiveSessionExists])
        && (outcome.DecodeFailed? ==> outcome.error == decode(l.v.data).error && w.errors == old(w.errors) + [outcome.error])
      ensures outcome.LoadFailed? || outcome.Conflict? || outcome.DecodeFailed? ==>
        saveRuns == 0 && store.mem.m == old(store.mem.m)
        && w.cookies == old(w.cookies) && w.statuses == old(w.statuses) && w.body == old(w.body)
      ensures outcome.LoadFailed? ==> w.errors == old(w.errors) + [outcome.error]
      ensures outcome.Served? && NoWrites(actions) ==> w.cookies == old(w.cookies) && w.body == old(w.body)
      ensures outcome.Served? ==>
        var a := AfterHandler(handled, end);
        store.mem.m == a.stored && w.errors == a.errors && w.cookies == a.cookies
        && w.statuses == a.statuses && w.body == a.body
      ensures outcome.Panicked? ==>
        store.mem.m == handled.stored && w.errors == handled.errors && w.cookies == handled.cookies
        && w.statuses == handled.statuses && w.body == handled.body
      ensures outcome.Served? || outcome.Panicked? ==>
        started == HandlerStart(LookupSpec(cookies, old(store.mem.m), start), randomID, start, old(store.mem.m),
                                old(w.cookies), old(w.statuses), old(w.body), old(w.errors))
      ensures outcome.Served? && NoWrites(actions) ==> !handled.wrote
      ensures actions == [] ==> !outcome.Panicked? && (outcome.Served? ==> handled == started)
      ensures OfferedID(cookies, settings.cookie.name).None? && randomID !in old(active) && actions == []
              && 0 <= settings.idleTimeout && end <= start + settings.absoluteTimeout
              && encode(ZeroPayload).Success? && store.fails(SaveCall(randomID)) == None ==>
        outcome == Served && LoadFrom(store.mem.m, randomID, end).Some?
        && w.errors == old(w.errors) && w.cookies == old(w.cookies)
    {
      started := Snapshot(RecordValue(randomID, ZeroTime, start, []), None, store.mem.m,
                          w.cookies, w.statuses, w.body, w.errors, false);
      handled := started;
      var l := LoadOffered(cookies, start);
      if l.LookupFailed? {
        w.HandleError(l.error);
        return LoadFailed(l.error), 0, started, handled;
      }
      var rec: Record;
      if l.Found? {
        rec := new Record(l.v.id, l.v.idleDeadline, l.v.absoluteDeadline, l.v.data, None);
      } else {
        rec := NewRecord(randomID, start);
      }

      if rec.id in active {
        w.HandleError(ActiveSessionExists);
        return Conflict, 0, started, handled;
      }
      var captured := rec.id;
      active := active + {captured};

      if l.Found? {
        var session := decode(rec.data);
        if session.Failure? {
          w.HandleError(session.error);
          active := active - {captured};
          return DecodeFailed(session.error), 0, started, handled;
        }
        rec.session := Some(session.value);
      }

      started := Snapshot(rec.Value(), rec.session, store.mem.m, w.cookies, w.statuses, w.body, w.errors, false);
      var panicked;
      panicked, saveRuns, handled := Serve(w, rec, actions, end);
      active := active - {captured};
      if panicked.Some? {
        return Panicked(panicked.value), saveRuns, started, handled;
      }
      outcome := Served;
      if OfferedID(cookies, settings.cookie.name).None? && actions == []
         && 0 <= settings.idleTimeout && end <= start + settings.absoluteTimeout
         && encode(ZeroPayload).Success? && store.fails(SaveCall(randomID)) == None {
        UntouchedFreshRequestSaved(cookies, old(store.mem.m), start, randomID, end,
                                   old(w.cookies), old(w.statuses), old(w.body), old(w.errors));
      }
    }

    /** The cookie lookup and `Load` that start a request; they change nothing. */
    method LoadOffered(cookies: seq<RequestCookie>, now: Time) returns (l: Lookup)
      ensures l == LookupSpec(cookies, store.mem.m, now)
    {
      var offered := OfferedID(cookies, settings.cookie.name);
      if offered.None? {
        return NotFound;
      }
      var r, err := store.Load(offered.value, now);
      if err.Some? {
        return LookupFailed(err.value);
      }
      l := if r.Some? then Found(r.value) else NotFound;
    }

    /**
     * The guarded part of the handler, run while the record's ID is held in
     * `activeSession`: the handler runs on a `sessionWriter`, and unless it
     * panicked the session is saved at `end` if no write already ran the
     * save protocol. `handled` is the state the handler left behind.
     */
    method Serve(w: Response, rec: Record, actions: seq<Action>, end: Time)
      returns (panicked: Option<string>, ghost saveRuns: nat, ghost handled: Snapshot)
      requires rec.id in active
      modifies w, rec, store.mem
      ensures saveRuns <= 1
      ensures panicked.None? ==> saveRuns == 1
      ensures NoWrites(actions) ==> !handled.wrote && handled.cookies == old(w.cookies) && handled.body == old(w.body)
      ensures panicked.None? && NoWrites(actions) ==> w.cookies == old(w.cookies) && w.body == old(w.body)
      ensures actions == [] ==>
        panicked == None
        && handled == Snapshot(old(rec.Value()), old(rec.session), old(store.mem.m),
                               old(w.cookies), old(w.statuses), old(w.body), old(w.errors), false)
      ensures var now := Snapshot(rec.Value(), rec.session, store.mem.m, w.cookies, w.statuses, w.body, w.errors, handled.wrote);
        now == if panicked.Some? then handled else AfterHandler(handled, end)
    {
      var sw := new SessionWriter(w, rec, this);
      panicked := RunHandler(sw, actions);
      saveRuns := sw.runs;
      handled := Snapshot(rec.Value(), rec.session, store.mem.m, w.cookies, w.statuses, w.body, w.errors, sw.saved || sw.failed);
      if panicked.Some? {
        return;
      }
      if !sw.saved && !sw.failed {
        var res := SaveRecord(rec, end);
        saveRuns := saveRuns + 1;
        if res.Failure? {
          w.HandleError(res.error);
        }
      }
    }

    /** `next.ServeHTTP(sw, r)`: the handler's actions until the end or the first panic. */
    method RunHandler(sw: SessionWriter, actions: seq<Action>) returns (panicked: Option<string>)
      requires sw.mw == this && sw.Valid()
      modifies sw, sw.rec, sw.w, store.mem
      ensures sw.Valid()
      ensures old(sw.saved) ==> sw.saved
      ensures old(sw.failed) ==> sw.failed
      ensures NoWrites(actions) ==>
        sw.saved == old(sw.saved) && sw.failed == old(sw.failed)
        && sw.w.cookies == old(sw.w.cookies) && sw.w.body == old(sw.w.body)
      ensures actions == [] ==> panicked == None && unchanged(sw.rec, sw.w) && store.mem.m == old(store.mem.m)
    {
      var i := 0;
      while i < |actions|
        invariant 0 <= i <= |actions|
        invariant sw.Valid()
        invariant old(sw.saved) ==> sw.saved
        invariant old(sw.failed) ==> sw.failed
        invariant NoWrites(actions) ==>
          sw.saved == old(sw.saved) && sw.failed == old(sw.failed)
          && sw.w.cookies == old(sw.w.cookies) && sw.w.body == old(sw.w.body)
        invariant i == 0 ==> unchanged(sw.rec, sw.w) && store.mem.m == old(store.mem.m)
      {
        var a := actions[i];
        match a.step {
        case GetStep(update) =>
          var r := Get(Some(sw.rec));
          if r.Panics? {
            return Some(r.message);
          }
          if update.Some? {
            sw.rec.session := Some(update.value);
          }
        case IDStep =>
          var _ := ID(Some(sw.rec));
        case DeleteStep =>
          var _ := Delete(Some(sw.rec));
        case RenewStep(id, random) =>
          var _ := Renew(Some(sw.rec), id, random, a.at);
        case WriteStep(b) =>
          var _, _ := sw.Write(b, a.at);
        case WriteHeaderStep(code) =>
          sw.WriteHeader(code, a.at);
        }
        i := i + 1;
      }
      return None;
    }
  }

  /**
   * `sessionWriter`: the first `Write` or `WriteHeader` runs the save
   * protocol; after a failed save nothing more reaches the client.
   * `runs` counts the runs of the save protocol.
   */
  class SessionWriter {
    const w: Response
    const rec: Record
    const mw: Middleware
    var saved: bool
    var failed: bool
    ghost var runs: nat

    ghost predicate Valid()
      reads this
    {
      !(saved && failed) && runs == (if saved || failed then 1 else 0)
    }

    constructor (w: Response, rec: Record, mw: Middleware)
      ensures this.w == w && this.rec == rec && this.mw == mw
      ensures !saved && !failed && Valid()
    {
      this.w := w;
      this.rec := rec;
      this.mw := mw;
      saved := false;
      failed := false;
      runs := 0;
    }

    /** `Write(b)` */
    method Write(b: Bytes, now: Time) returns (n: int, err: Option<Error>)
      requires Valid()
      modifies this, w, rec, mw.store.mem
      ensures Valid() && (saved || failed)
      ensures old(failed) ==>
        failed && n == |b| && err == None && unchanged(w, rec) && mw.store.mem.m == old(mw.store.mem.m)
      ensures old(saved) ==>
        saved && n == |b| && err == None && unchanged(rec) && mw.store.mem.m == old(mw.store.mem.m)
        && w.body == old(w.body) + b && w.cookies == old(w.cookies) && w.errors == old(w.errors)
      ensures !old(saved) && !old(failed) ==>
        var o := mw.SaveRecordSpec(old(rec.Value()), old(rec.session), old(mw.store.mem.m), now);
        rec.Value() == o.record && rec.session == old(rec.session) && mw.store.mem.m == o.stored
        && n == |b| && err == None && w.statuses == old(w.statuses)
        && (o.result.Failure? ==>
              failed && w.errors == old(w.errors) + [o.result.error]
              && w.cookies == old(w.cookies) && w.body == old(w.body))
        && (o.result.Success? ==>
              saved && w.errors == old(w.errors)
              && w.cookies == old(w.cookies) + [mw.CookieAfter(o.result.value, o.record, now)]
              && w.body == old(w.body) + b)
    {
      if failed {
        return |b|, None;
      }
      if !saved {
        var e := mw.SaveSession(rec, w, now);
        runs := runs + 1;
        if e.Some? {
          w.HandleError(e.value);
          failed := true;
          return |b|, None;
        }
        saved := true;
      }
      n, err := w.Write(b);
    }

    /** `WriteHeader(code)` */
    method WriteHeader(code: int, now: Time)
      requires Valid()
      modifies this, w, rec, mw.store.mem
      ensures Valid() && (saved || failed)
      ensures old(failed) ==> failed && unchanged(w, rec) && mw.store.mem.m == old(mw.store.mem.m)
      ensures old(saved) ==>
        saved && unchanged(rec) && mw.store.mem.m == old(mw.store.mem.m)
        && w.statuses == old(w.statuses) + [code] && w.cookies == old(w.cookies)
        && w.body == old(w.body) && w.errors == old(w.errors)
      ensures !old(saved) && !old(failed) ==>
        var o := mw.SaveRecordSpec(old(rec.Value()), old(rec.session), old(mw.store.mem.m), now);
        rec.Value() == o.record && rec.session == old(rec.session) && mw.store.mem.m == o.stored
        && w.body == old(w.body)
        && (o.result.Failure? ==>
              failed && w.errors == old(w.errors) + [o.result.error]
              && w.cookies == old(w.cookies) && w.statuses == old(w.statuses))
        && (o.result.Success? ==>
              saved && w.errors == old(w.errors)
              && w.cookies == old(w.cookies) + [mw.CookieAfter(o.result.value, o.record, now)]
              && w.statuses == old(w.statuses) + [code])
    {
      if failed {
        return;
      }
      if !saved {
        var e := mw.SaveSession(rec, w, now);
        runs := runs + 1;
        if e.Some? {
          w.HandleError(e.value);
          failed := true;
          return;
        }
        saved := true;
      }
      w.WriteHeader(code);
    }
  }
}
