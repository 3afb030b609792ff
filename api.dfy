/** The browser's API client: request bodies, endpoints, the error messages
    `request` raises, and the cached settings. */
module Api {
  import opened Wrappers
  import opened Js
  import opened Text
  import Numbers

  /** `m` with `k := v` when `v` is defined: `JSON.stringify` drops
      properties whose value is `undefined`. */
  function Defined(m: map<string, Value>, k: string, v: Option<Value>): map<string, Value> {
    if v.Some? then m[k := v.value] else m
  }

  /** The body `markAttendance(memberId, date, status, checkInTime)` posts,
      as the server parses it; `checkInTime` defaults to null. */
  function AttendanceBody(memberId: Option<Value>, date: Option<Value>, status: Option<Value>,
                          checkInTime: Option<Value>): Value
  {
    Obj(Defined(Defined(Defined(map["checkInTime" := checkInTime.GetOr(Null)], "memberId", memberId),
                        "date", date), "status", status))
  }

  /** The attendance body carries exactly the four fields, each the argument
      given, with a missing check-in time sent as null. */
  lemma AttendanceBodyFields(memberId: Option<Value>, date: Option<Value>, status: Option<Value>,
                             checkInTime: Option<Value>)
    ensures var b := AttendanceBody(memberId, date, status, checkInTime);
      && Field(b, "memberId") == memberId
      && Field(b, "date") == date
      && Field(b, "status") == status
      && Field(b, "checkInTime") == Some(checkInTime.GetOr(Null))
      && b.Obj? && b.fields.Keys <= {"memberId", "date", "status", "checkInTime"}
  {
  }

  // ---------------------------------------------------------------------
  // `request`: what a call returns or throws

  /** A thrown JavaScript error: its `name` and `message`. */
  datatype Error = Error(name: string, message: string)

  /** What `fetch` does: reject with an error (an abort after the 10 s
      timeout rejects with an `AbortError`), or resolve with a response whose
      `ok`, status and body text are given, with `parsed` the body as
      `JSON.parse` reads it (`None` when it is not JSON). */
  datatype Fetched =
    | Rejected(error: Error)
    | Responded(ok: bool, status: int, text: string, parsed: Option<Value>)

  const TimeoutMessage := "Tempo esgotado. Verifique sua conexão com o servidor."
  const ConnectionMessage := "Não foi possível conectar ao servidor. Verifique se o backend está rodando."
  const NullErrorData := "Cannot read properties of null (reading 'error')"
  const NotJson := "Unexpected token in JSON"

  /** The message thrown for a non-OK response: the parsed body's `error`,
      else its `message`, else `HTTP <status>`; a body that is not JSON
      stands for `{error: text}`. A body that parses to null makes the
      property read throw a TypeError instead. */
  function FailureMessage(status: int, text: string, parsed: Option<Value>): Result<string, Error> {
    var data := if parsed.Some? then parsed.value else Obj(map["error" := Str(text)]);
    if data == Null then Err(Error("TypeError", NullErrorData))
    else if Present(Field(data, "error")) then Ok(ToStr(Field(data, "error").value))
    else if Present(Field(data, "message")) then Ok(ToStr(Field(data, "message").value))
    else Ok("HTTP " + IntToString(status))
  }

  /** The `catch` of `request`: a timeout and a connection failure get
      fixed messages, everything else is rethrown as it is. */
  function Caught(e: Error): Error {
    if e.name == "AbortError" then Error("Error", TimeoutMessage)
    else if Contains(e.message, "Failed to fetch") || Contains(e.message, "NetworkError") then
      Error("Error", ConnectionMessage)
    else e
  }

  /** `request(endpoint, options)`: the parsed body of an OK response, or
      the error it throws. */
  function Outcome(f: Fetched): Result<Value, Error> {
    match f
    case Rejected(e) => Err(Caught(e))
    case Responded(ok, status, text, parsed) =>
      if !ok then
        match FailureMessage(status, text, parsed)
        case Ok(m) => Err(Caught(Error("Error", m)))
        case Err(e) => Err(Caught(e))
      else if parsed.None? then Err(Caught(Error("SyntaxError", NotJson)))
      else Ok(parsed.value)
  }

  /** The message choice for a non-OK response, field by field. */
  lemma FailureMessageChoice(status: int, text: string, parsed: Option<Value>)
    requires parsed.Some? ==> parsed.value != Null
    ensures var data := if parsed.Some? then parsed.value else Obj(map["error" := Str(text)]);
      var m := FailureMessage(status, text, parsed);
      && m.Ok?
      && (Present(Field(data, "error")) ==> m.value == ToStr(Field(data, "error").value))
      && (!Present(Field(data, "error")) && Present(Field(data, "message")) ==>
            m.value == ToStr(Field(data, "message").value))
      && (!Present(Field(data, "error")) && !Present(Field(data, "message")) ==>
            m.value == "HTTP " + IntToString(status))
  {
  }

  /** A body that is not JSON is itself the message, or `HTTP <status>`
      when it is empty. */
  lemma NonJsonBodyIsMessage(status: int, text: string)
    ensures FailureMessage(status, text, None) == Ok(if text != "" then text else "HTTP " + IntToString(status))
  {
    assert Field(Obj(map["error" := Str(text)]), "message") == None;
  }

  /** A timeout always ends with the fixed timeout message, whatever the
      abort's own message. */
  lemma TimeoutMapped(message: string)
    ensures Outcome(Rejected(Error("AbortError", message))) == Err(Error("Error", TimeoutMessage))
  {
  }

  /** Errors that are neither a timeout nor a connection failure reach the
      caller unchanged; connection failures get the fixed message. */
  lemma CaughtSpec(e: Error)
    ensures e.name != "AbortError" && !Contains(e.message, "Failed to fetch") && !Contains(e.message, "NetworkError")
      ==> Caught(e) == e
    ensures e.name != "AbortError" && (Contains(e.message, "Failed to fetch") || Contains(e.message, "NetworkError"))
      ==> Caught(e) == Error("Error", ConnectionMessage)
    ensures Caught(e).name == "Error" || Caught(e) == e
  {
  }
  /** A non-OK response whose JSON body has a non-empty string `error`
      throws that text, unless it mentions a connection failure. */
  lemma ServerErrorReachesCaller(status: int, text: string, body: map<string, Value>, m: string)
    requires "error" in body && body["error"] == Str(m) && m != ""
    requires !Contains(m, "Failed to fetch") && !Contains(m, "NetworkError")
    ensures Outcome(Responded(false, status, text, Some(Obj(body)))) == Err(Error("Error", m))
  {
  }

  // ---------------------------------------------------------------------
  // `getMembers`: the endpoint

  /** The filter `getMembers` receives: `search` and `class`, each a string
      or `undefined`. */
  datatype Filter = Filter(search: Option<string>, className: Option<string>)

  /** A filter value counts when it is non-blank after trimming. */
  predicate Given(v: Option<string>) {
    v.Some? && v.value != "" && Trim(v.value) != ""
  }

  /** The query parameters `getMembers` appends, in order. */
  function MembersParams(f: Filter): seq<(string, string)> {
    (if Given(f.search) then [("search", Trim(f.search.value))] else [])
    + (if Given(f.className) then [("class", Trim(f.className.value))] else [])
  }

  /** `URLSearchParams.toString()`, with `encode` the form encoding of one
      name or value. */
  function Query(params: seq<(string, string)>, encode: string -> string): string
    decreases |params|
  {
    if params == [] then ""
    else
      var p := params[|params| - 1];
      var last := encode(p.0) + "=" + encode(p.1);
      if |params| == 1 then last else Query(params[..|params| - 1], encode) + "&" + last
  }

  /** `getMembers(filter)` builds its endpoint: the parameters are appended
      one by one, and the query is attached only when there is one. */
  method MembersEndpoint(f: Filter, encode: string -> string) returns (endpoint: string)
    ensures MembersParams(f) == [] ==> endpoint == "/members/active"
    ensures MembersParams(f) != [] ==> endpoint == "/members/active?" + Query(MembersParams(f), encode)
  {
    var params: seq<(string, string)> := [];
    if Given(f.search) {
      params := params + [("search", Trim(f.search.value))];
    }
    if Given(f.className) {
      params := params + [("class", Trim(f.className.value))];
    }
    assert params == MembersParams(f);
    var query := Query(params, encode);
    if params != [] {
      assert query != "" by {
        QueryNonEmpty(params, encode);
      }
    }
    endpoint := if query != "" then "/members/active?" + query else "/members/active";
  }

  lemma QueryNonEmpty(params: seq<(string, string)>, encode: string -> string)
    requires params != []
    ensures Query(params, encode) != ""
  {
    var p := params[|params| - 1];
    assert (encode(p.0) + "=" + encode(p.1))[|encode(p.0)|] == '=';
  }

  /** `search` is appended, trimmed, exactly when it is non-blank, then
      `class` likewise; nothing else is appended. */
  lemma MembersParamsSpec(f: Filter)
    ensures var ps := MembersParams(f);
      && |ps| == (if Given(f.search) then 1 else 0) + (if Given(f.className) then 1 else 0)
      && (Given(f.search) ==> ps[0] == ("search", Trim(f.search.value)))
      && (Given(f.className) ==> ps[|ps| - 1] == ("class", Trim(f.className.value)))
  {
  }

  /** Blank filters give the plain endpoint, whatever surrounds the blanks. */
  lemma BlankFiltersPlainEndpoint(search: string, className: string)
    requires AllSpace(search) && AllSpace(className)
    ensures MembersParams(Filter(Some(search), Some(className))) == []
    ensures MembersParams(Filter(None, None)) == []
  {
    TrimSpec(search);
    TrimSpec(className);
  }

  // ---------------------------------------------------------------------
  // Settings

  /** The settings the client starts with. */
  const DefaultSettings: map<string, Value> :=
    map["classHour" := Num(9), "classMinute" := Num(0), "classDuration" := Num(60), "toleranceMinutes" := Num(15)]

  /** `if (r.k) this.settings.k = parseInt(r.k)`. */
  function Refresh(m: map<string, Value>, r: Value, k: string): map<string, Value> {
    if Present(Field(r, k)) then m[k := Numbers.ParseInt(ToStr(Field(r, k).value))] else m
  }

  /** The settings after loading the server's answer `r`. */
  function Loaded(m: map<string, Value>, r: Value): map<string, Value> {
    Refresh(Refresh(Refresh(Refresh(m, r, "classHour"), r, "classMinute"), r, "classDuration"), r, "toleranceMinutes")
  }

  predicate SettingKey(k: string) {
    k == "classHour" || k == "classMinute" || k == "classDuration" || k == "toleranceMinutes"
  }

  lemma RefreshSpec(m: map<string, Value>, r: Value, k: string, j: string)
    ensures j == k && Present(Field(r, k)) ==>
      j in Refresh(m, r, k) && Refresh(m, r, k)[j] == Numbers.ParseInt(ToStr(Field(r, k).value))
    ensures !(j == k && Present(Field(r, k))) ==>
      (j in Refresh(m, r, k) <==> j in m) && (j in m ==> Refresh(m, r, k)[j] == m[j])
  {
  }

  /** Loading overwrites one of the four settings only when the answer has
      it truthy, with its `parseInt`; every other entry is kept. */
  lemma LoadedSpec(m: map<string, Value>, r: Value, k: string)
    ensures SettingKey(k) && Present(Field(r, k)) ==>
      k in Loaded(m, r) && Loaded(m, r)[k] == Numbers.ParseInt(ToStr(Field(r, k).value))
    ensures !(SettingKey(k) && Present(Field(r, k))) ==>
      (k in Loaded(m, r) <==> k in m) && (k in m ==> Loaded(m, r)[k] == m[k])
  {
    var m1 := Refresh(m, r, "classHour");
    var m2 := Refresh(m1, r, "classMinute");
    var m3 := Refresh(m2, r, "classDuration");
    RefreshSpec(m, r, "classHour", k);
    RefreshSpec(m1, r, "classMinute", k);
    RefreshSpec(m2, r, "classDuration", k);
    RefreshSpec(m3, r, "toleranceMinutes", k);
  }

  /** Loading the same answer twice is the same as loading it once. */
  lemma LoadedIdempotent(m: map<string, Value>, r: Value)
    ensures Loaded(Loaded(m, r), r) == Loaded(m, r)
  {
    var once := Loaded(m, r);
    forall k | k in once
      ensures k in Loaded(once, r) && Loaded(once, r)[k] == once[k]
    {
      LoadedSpec(m, r, k);
      LoadedSpec(once, r, k);
    }
    forall k | k in Loaded(once, r)
      ensures k in once
    {
      LoadedSpec(once, r, k);
    }
  }

  /** The body `saveSettings` posts for one entry. */
  function SettingBody(k: string, v: Value): Value {
    Obj(map["key" := Str(k), "value" := Str(ToStr(v))])
  }

  /** The API client's settings cache. */
  class ApiService {
    var settings: map<string, Value>

    constructor()
      ensures settings == DefaultSettings
    {
      settings := DefaultSettings;
    }

    /** `getSettings()`: `answer` is what `request('/settings')` gives.
        Any failure, including a null answer whose fields cannot be read,
        returns the current settings unchanged. */
    method GetSettings(answer: Result<Value, Error>) returns (r: Value)
      modifies this
      ensures answer.Ok? && answer.value != Null ==> settings == Loaded(old(settings), answer.value) && r == answer.value
      ensures !(answer.Ok? && answer.value != Null) ==> settings == old(settings) && r == Obj(settings)
    {
      if answer.Err? || answer.value == Null {
        return Obj(settings);
      }
      var a := answer.value;
      settings := Refresh(settings, a, "classHour");
      settings := Refresh(settings, a, "classMinute");
      settings := Refresh(settings, a, "classDuration");
      settings := Refresh(settings, a, "toleranceMinutes");
      r := a;
    }

    /** `saveSettings(arg)`: one POST per entry of `arg`, all sent before any
        answers; `ok(k)` says whether the POST for key `k` succeeds. The
        cache is merged only when every POST succeeded. `Object.entries` of
        `undefined` or null throws before anything is sent. */
    method SaveSettings(arg: Option<Value>, ok: string -> bool) returns (posted: map<string, Value>, thrown: bool)
      modifies this
      ensures arg.None? || arg == Some(Null) ==> posted == map[] && thrown && settings == old(settings)
      ensures arg.Some? && arg.value != Null ==>
        && posted == (map k | k in Spread(arg.value) :: SettingBody(k, Spread(arg.value)[k]))
        && (thrown <==> exists k :: k in Spread(arg.value) && !ok(k))
        && settings == (if thrown then old(settings) else old(settings) + Spread(arg.value))
    {
      if arg.None? || arg.value == Null {
        return map[], true;
      }
      var entries := Spread(arg.value);
      posted := map k | k in entries :: SettingBody(k, entries[k]);
      thrown := exists k :: k in entries && !ok(k);
      if !thrown {
        settings := settings + entries;
      }
    }
  }
}
