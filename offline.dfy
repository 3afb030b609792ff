/** The browser's offline layer: the auto-incremented `pending` store of
    queued writes, the replay loop that drains it, and the wrapper that
    answers API requests from the queue and the local mirror when the
    network is missing or fails.

    IndexedDB is modelled by its observable content: the `pending` store as
    the sequence of its records in key order plus its key generator, and
    the `members` store as a constant mirror. The network, the clock and
    the undefined `getRequestType` are parameters. */
module Offline {
  import opened Wrappers
  import opened Js
  import opened Text
  import Api

  /** A record of the `pending` store. The timestamp is the clock reading
      in milliseconds (its ISO rendering is not modelled). */
  datatype PendingItem = PendingItem(id: nat, kind: string, data: Value, timestamp: int, attempts: int)

  /** The `pending` store: its records in key order and the next key the
      generator hands out. */
  datatype Store = Store(items: seq<PendingItem>, nextId: nat)

  /** Keys strictly increase along the store. */
  predicate Sorted(items: seq<PendingItem>)
    decreases |items|
  {
    |items| <= 1 || (items[0].id < items[1].id && Sorted(items[1..]))
  }

  /** Every key is below `n`. */
  predicate Below(items: seq<PendingItem>, n: nat)
    decreases |items|
  {
    items == [] || (items[0].id < n && Below(items[1..], n))
  }

  /** A store as IndexedDB keeps it: keys in order, all below the
      generator's next key. */
  predicate WellFormed(s: Store) {
    Sorted(s.items) && Below(s.items, s.nextId)
  }

  /** `store.get(id)`: the record with that key, if any. */
  function Lookup(items: seq<PendingItem>, id: nat): Option<PendingItem>
    decreases |items|
  {
    if items == [] then None
    else if items[0].id == id then Some(items[0])
    else Lookup(items[1..], id)
  }

  /** Inserting `it` in key order, replacing the record with its key. */
  function Upsert(items: seq<PendingItem>, it: PendingItem): seq<PendingItem>
    decreases |items|
  {
    if items == [] then [it]
    else if items[0].id == it.id then [it] + items[1..]
    else if it.id < items[0].id then [it] + items
    else [items[0]] + Upsert(items[1..], it)
  }

  /** Removing the record with key `id`. */
  function Remove(items: seq<PendingItem>, id: nat): seq<PendingItem>
    decreases |items|
  {
    if items == [] then []
    else if items[0].id == id then items[1..]
    else [items[0]] + Remove(items[1..], id)
  }

  /** `store.put(item)` with the item's own key: the key generator moves
      past an explicit key that reaches it. */
  function Put(s: Store, it: PendingItem): Store {
    Store(Upsert(s.items, it), if it.id >= s.nextId then it.id + 1 else s.nextId)
  }

  /** `store.put(record)` for a record without key: the generator assigns
      the next key. A new pending record starts with no attempts. */
  function Append(s: Store, kind: string, data: Value, now: int): Store {
    Store(s.items + [PendingItem(s.nextId, kind, data, now, 0)], s.nextId + 1)
  }

  /** `store.delete(id)`. */
  function Delete(s: Store, id: nat): Store {
    Store(Remove(s.items, id), s.nextId)
  }

  lemma {:induction false} LookupBeyond(items: seq<PendingItem>, x: nat)
    requires Sorted(items)
    requires items == [] || x < items[0].id
    ensures Lookup(items, x) == None
    decreases |items|
  {
    if |items| > 1 {
      LookupBeyond(items[1..], x);
    }
  }

  lemma {:induction false} LookupAbove(items: seq<PendingItem>, n: nat, x: nat)
    requires Below(items, n) && x >= n
    ensures Lookup(items, x) == None
    decreases |items|
  {
    if items != [] {
      LookupAbove(items[1..], n, x);
    }
  }

  /** Every record of a well-formed store is found under its own key. */
  lemma {:induction false} LookupIndex(items: seq<PendingItem>, i: nat)
    requires Sorted(items) && i < |items|
    ensures Lookup(items, items[i].id) == Some(items[i])
    decreases i
  {
    if i > 0 {
      assert items[i].id != items[0].id by {
        KeysIncrease(items, 0, i);
      }
      LookupIndex(items[1..], i - 1);
    }
  }

  /** In a sorted store, later records have larger keys. */
  lemma {:induction false} KeysIncrease(items: seq<PendingItem>, i: nat, j: nat)
    requires Sorted(items) && i < j < |items|
    ensures items[i].id < items[j].id
    decreases j
  {
    if i > 0 {
      KeysIncrease(items[1..], i - 1, j - 1);
    } else if j > 1 {
      KeysIncrease(items[1..], 0, j - 1);
    }
  }

  lemma {:induction false} UpsertSpec(items: seq<PendingItem>, it: PendingItem)
    requires Sorted(items)
    ensures var u := Upsert(items, it);
      && u != []
      && u[0].id == (if items == [] || it.id <= items[0].id then it.id else items[0].id)
      && Sorted(u)
      && Lookup(u, it.id) == Some(it)
      && forall x :: x != it.id ==> Lookup(u, x) == Lookup(items, x)
    decreases |items|
  {
    if items != [] && items[0].id != it.id && it.id > items[0].id {
      UpsertSpec(items[1..], it);
    }
  }

  /** Saving a record under a key the store holds keeps the count. */
  lemma {:induction false} UpsertPresentLength(items: seq<PendingItem>, it: PendingItem)
    requires Sorted(items) && Lookup(items, it.id).Some?
    ensures |Upsert(items, it)| == |items|
    decreases |items|
  {
    if items[0].id != it.id {
      if it.id < items[0].id {
        LookupBeyond(items, it.id);
      } else {
        UpsertPresentLength(items[1..], it);
      }
    }
  }

  lemma {:induction false} UpsertBelow(items: seq<PendingItem>, it: PendingItem, n: nat)
    requires Below(items, n) && it.id < n
    ensures Below(Upsert(items, it), n)
    decreases |items|
  {
    if items != [] && items[0].id != it.id && it.id > items[0].id {
      UpsertBelow(items[1..], it, n);
    }
  }

  lemma {:induction false} RemoveSpec(items: seq<PendingItem>, id: nat, n: nat)
    requires Sorted(items) && Below(items, n)
    ensures var r := Remove(items, id);
      && Sorted(r) && Below(r, n)
      && (r == [] || (items != [] && r[0].id >= items[0].id))
      && Lookup(r, id) == None
      && forall x :: x != id ==> Lookup(r, x) == Lookup(items, x)
    decreases |items|
  {
    if items != [] {
      if items[0].id == id {
        if |items| > 1 {
          LookupBeyond(items[1..], id);
        }
      } else {
        RemoveSpec(items[1..], id, n);
      }
    }
  }

  lemma {:induction false} AppendSpec(items: seq<PendingItem>, n: nat, p: PendingItem)
    requires Sorted(items) && Below(items, n) && p.id == n
    ensures Sorted(items + [p]) && Below(items + [p], n + 1)
    ensures Lookup(items + [p], n) == Some(p)
    ensures forall x :: x != n ==> Lookup(items + [p], x) == Lookup(items, x)
    decreases |items|
  {
    if items == [] {
    } else {
      assert (items + [p])[1..] == items[1..] + [p];
      AppendSpec(items[1..], n, p);
    }
  }

  /** Saving a record makes it the one found under its key and leaves every
      other key's record as it was. */
  lemma PutSpec(s: Store, it: PendingItem)
    requires WellFormed(s)
    ensures WellFormed(Put(s, it)) && Put(s, it).nextId >= s.nextId
    ensures Lookup(Put(s, it).items, it.id) == Some(it)
    ensures forall x :: x != it.id ==> Lookup(Put(s, it).items, x) == Lookup(s.items, x)
  {
    UpsertSpec(s.items, it);
    var n := if it.id >= s.nextId then it.id + 1 else s.nextId;
    BelowMono(s.items, s.nextId, n);
    UpsertBelow(s.items, it, n);
  }

  lemma {:induction false} BelowMono(items: seq<PendingItem>, n: nat, m: nat)
    requires Below(items, n) && n <= m
    ensures Below(items, m)
    decreases |items|
  {
    if items != [] {
      BelowMono(items[1..], n, m);
    }
  }

  /** Deleting a key removes its record and leaves every other key's record
      as it was. */
  lemma DeleteSpec(s: Store, id: nat)
    requires WellFormed(s)
    ensures WellFormed(Delete(s, id)) && Delete(s, id).nextId == s.nextId
    ensures Lookup(Delete(s, id).items, id) == None
    ensures forall x :: x != id ==> Lookup(Delete(s, id).items, x) == Lookup(s.items, x)
  {
    RemoveSpec(s.items, id, s.nextId);
  }

  /** Queueing adds exactly one record, under a key no record had, with the
      given type and data and no attempts; every other record is unchanged
      and the count grows by one. */
  lemma AppendAddsOne(s: Store, kind: string, data: Value, now: int)
    requires WellFormed(s)
    ensures var t := Append(s, kind, data, now);
      && WellFormed(t) && t.nextId > s.nextId
      && Lookup(s.items, s.nextId) == None
      && Lookup(t.items, s.nextId) == Some(PendingItem(s.nextId, kind, data, now, 0))
      && (forall x :: x != s.nextId ==> Lookup(t.items, x) == Lookup(s.items, x))
      && |t.items| == |s.items| + 1
  {
    LookupAbove(s.items, s.nextId, s.nextId);
    AppendSpec(s.items, s.nextId, PendingItem(s.nextId, kind, data, now, 0));
  }

  // ---------------------------------------------------------------------
  // The request wrapper's decision

  /** Request options: the HTTP method (`undefined` when absent) and the
      body as `JSON.parse` reads it (`undefined` when absent). */
  datatype Options = Options(httpMethod: Option<string>, body: Option<Value>)

  /** What the network and the clock give one call: the outcome of the
      original `request` (its value or the message it throws) and
      `Date.now()`. */
  datatype Env = Env(net: Result<Value, string>, now: int)

  /** What a wrapped request does: answer at once, or queue a write and
      answer with the optimistic record. */
  datatype Action =
    | Answer(result: Result<Value, string>)
    | Queue(kind: string, data: Value, now: int)
  {
    /** What the caller receives. */
    function Reply(): Result<Value, string> {
      match this
      case Answer(r) => r
      case Queue(_, data, now) => Ok(Optimistic(data, now))
    }
  }

  /** The result of a call: the store after it and what the caller receives. */
  datatype Outcome = Outcome(store: Store, reply: Result<Value, string>)

  /** Carrying out an action on the store. */
  function Perform(s: Store, a: Action): Outcome {
    match a
    case Answer(r) => Outcome(s, r)
    case Queue(kind, data, now) => Outcome(Append(s, kind, data, now), a.Reply())
  }

  const NotAFunction := "TypeError: this.getRequestType is not a function"
  const ParseUndefined := "SyntaxError: \"undefined\" is not valid JSON"

  /** `{id: Date.now(), ...data, _offline: true}`: later properties win. */
  function Optimistic(data: Value, now: int): Value {
    Obj(map["id" := Num(now)] + Spread(data) + map["_offline" := Bool(true)])
  }

  /** `members.filter(m => m.active)` over the local mirror. */
  function ActiveMembers(mirror: seq<map<string, Value>>): seq<Value>
    decreases |mirror|
  {
    if mirror == [] then []
    else
      var rest := ActiveMembers(mirror[1..]);
      if Present(Field(Obj(mirror[0]), "active")) then [Obj(mirror[0])] + rest else rest
  }

  /** Saving a POST for later: the request type is asked of
      `getRequestType` (a TypeError while it is undefined), then the body is
      parsed (a SyntaxError when there is none). */
  function QueueAction(requestType: Option<string -> string>, endpoint: string,
                       body: Option<Value>, now: int): Action
  {
    match requestType
    case None => Answer(Err(NotAFunction))
    case Some(f) =>
      if body.None? then Answer(Err(ParseUndefined)) else Queue(f(endpoint), body.value, now)
  }

  /** The wrapper while offline: the mirror answers `/members/active`, a
      POST is queued, anything else gets `[]`. */
  function OfflineAction(mirror: seq<map<string, Value>>, requestType: Option<string -> string>,
                         endpoint: string, opts: Options, now: int): Action
  {
    if Contains(endpoint, "/members/active") then Answer(Ok(Arr(ActiveMembers(mirror))))
    else if opts.httpMethod == Some("POST") then QueueAction(requestType, endpoint, opts.body, now)
    else Answer(Ok(Arr([])))
  }

  /** The wrapper while online: the original request's value is returned;
      when it throws, a POST is queued and anything else rethrows. */
  function OnlineAction(requestType: Option<string -> string>, endpoint: string, opts: Options,
                        e: Env): Action
  {
    match e.net
    case Ok(v) => Answer(Ok(v))
    case Err(msg) =>
      if opts.httpMethod == Some("POST") then QueueAction(requestType, endpoint, opts.body, e.now)
      else Answer(Err(msg))
  }

  function WrapAction(mirror: seq<map<string, Value>>, requestType: Option<string -> string>,
                      endpoint: string, opts: Options, online: bool, e: Env): Action
  {
    if online then OnlineAction(requestType, endpoint, opts, e)
    else OfflineAction(mirror, requestType, endpoint, opts, e.now)
  }

  /** The offline answer to `/members/active` holds exactly the mirror's
      members whose `active` is truthy (their order is `ActiveMembersAppend`). */
  lemma {:induction false} ActiveMembersSpec(mirror: seq<map<string, Value>>)
    ensures var r := ActiveMembers(mirror);
      && |r| <= |mirror|
      && (forall v :: v in r ==> v.Obj? && v.fields in mirror && Present(Field(v, "active")))
      && (forall i :: 0 <= i < |mirror| && Present(Field(Obj(mirror[i]), "active")) ==> Obj(mirror[i]) in r)
    decreases |mirror|
  {
    if mirror != [] {
      ActiveMembersSpec(mirror[1..]);
      forall i | 0 <= i < |mirror| && Present(Field(Obj(mirror[i]), "active"))
        ensures Obj(mirror[i]) in ActiveMembers(mirror)
      {
        if i > 0 {
          assert mirror[1..][i - 1] == mirror[i];
        }
      }
    }
  }

  /** The filter keeps the mirror's order: the answer for two runs of members
      is the answer for the first run followed by the answer for the second. */
  lemma {:induction false} ActiveMembersAppend(a: seq<map<string, Value>>, b: seq<map<string, Value>>)
    ensures ActiveMembers(a + b) == ActiveMembers(a) + ActiveMembers(b)
    decreases |a|
  {
    if a != [] {
      assert (a + b)[1..] == a[1..] + b;
      ActiveMembersAppend(a[1..], b);
    } else {
      assert a + b == b;
    }
  }

  /** The optimistic record carries every body field, `_offline: true`, and
      the clock reading as `id` unless the body has its own `id`. */
  lemma OptimisticFields(data: map<string, Value>, now: int)
    ensures var r := Optimistic(Obj(data), now);
      && Field(r, "_offline") == Some(Bool(true))
      && Field(r, "id") == Some(if "id" in data then data["id"] else Num(now))
      && (forall k :: k in data && k != "_offline" ==> Field(r, k) == Some(data[k]))
      && r.fields.Keys == data.Keys + {"id", "_offline"}
  {
  }

  /** Offline, a POST to any endpoint but `/members/active` queues exactly
      one record with the endpoint's type and the body, and answers with the
      optimistic record. */
  lemma OfflinePostQueues(s: Store, mirror: seq<map<string, Value>>, f: string -> string,
                          endpoint: string, body: Value, e: Env)
    requires WellFormed(s)
    requires !Contains(endpoint, "/members/active")
    ensures var o := Perform(s, WrapAction(mirror, Some(f), endpoint, Options(Some("POST"), Some(body)), false, e));
      && |o.store.items| == |s.items| + 1
      && Lookup(o.store.items, s.nextId) == Some(PendingItem(s.nextId, f(endpoint), body, e.now, 0))
      && (forall x :: x != s.nextId ==> Lookup(o.store.items, x) == Lookup(s.items, x))
      && o.reply == Ok(Optimistic(body, e.now))
  {
    AppendAddsOne(s, f(endpoint), body, e.now);
  }

  /** Offline, anything but a POST leaves the store alone and answers with
      the mirror's active members for `/members/active` and `[]` otherwise. */
  lemma OfflineReads(s: Store, mirror: seq<map<string, Value>>, requestType: Option<string -> string>,
                     endpoint: string, opts: Options, e: Env)
    requires opts.httpMethod != Some("POST") || Contains(endpoint, "/members/active")
    ensures var o := Perform(s, WrapAction(mirror, requestType, endpoint, opts, false, e));
      && o.store == s
      && o.reply == Ok(Arr(if Contains(endpoint, "/members/active") then ActiveMembers(mirror) else []))
  {
  }

  /** Online, the original request's value is returned unchanged, and a
      failure of anything but a POST is rethrown unchanged; neither touches
      the store. */
  lemma OnlinePassesThrough(s: Store, mirror: seq<map<string, Value>>, requestType: Option<string -> string>,
                            endpoint: string, opts: Options, e: Env)
    requires e.net.Ok? || opts.httpMethod != Some("POST")
    ensures Perform(s, WrapAction(mirror, requestType, endpoint, opts, true, e)) == Outcome(s, e.net)
  {
  }

  /** Online, a failed POST is queued and answered like an offline one. */
  lemma OnlineFailedPostQueues(s: Store, mirror: seq<map<string, Value>>, f: string -> string,
                               endpoint: string, body: Value, msg: string, now: int)
    requires WellFormed(s)
    ensures var o := Perform(s, WrapAction(mirror, Some(f), endpoint, Options(Some("POST"), Some(body)), true, Env(Err(msg), now)));
      && Lookup(o.store.items, s.nextId) == Some(PendingItem(s.nextId, f(endpoint), body, now, 0))
      && (forall x :: x != s.nextId ==> Lookup(o.store.items, x) == Lookup(s.items, x))
      && o.reply == Ok(Optimistic(body, now))
  {
    AppendAddsOne(s, f(endpoint), body, now);
  }

  /** As written, `getRequestType` is not defined on the API client, so every
      path that would queue a write throws a TypeError and queues nothing. */
  lemma QueueWithoutRequestType(s: Store, mirror: seq<map<string, Value>>, endpoint: string,
                                body: Option<Value>, online: bool, e: Env)
    requires online ==> e.net.Err?
    requires !online ==> !Contains(endpoint, "/members/active")
    ensures Perform(s, WrapAction(mirror, None, endpoint, Options(Some("POST"), body), online, e))
         == Outcome(s, Err(NotAFunction))
  {
  }

  // ---------------------------------------------------------------------
  // Replaying one record and draining the store

  /** `syncItem(item)`: attendance is replayed through `markAttendance`,
      members through `addMember`, both going through the wrapper while
      online; an unknown type answers `{success: false}`. Reading the
      fields of a null `data` throws. */
  function ReplayAction(requestType: Option<string -> string>, it: PendingItem, e: Env): Action {
    if it.kind == "attendance" then
      if it.data == Null then Answer(Err(ReadOfNull))
      else
        var body := Api.AttendanceBody(Field(it.data, "memberId"), Field(it.data, "date"),
                                       Field(it.data, "status"), Field(it.data, "checkInTime"));
        OnlineAction(requestType, "/attendance", Options(Some("POST"), Some(body)), e)
    else if it.kind == "member" then
      OnlineAction(requestType, "/members", Options(Some("POST"), Some(it.data)), e)
    else Answer(Ok(Obj(map["success" := Bool(false)])))
  }

  /** What a replay's reply does to the replayed record: a throw (or a null
      reply, whose `success` throws) leaves it, a truthy `success` deletes
      it, anything else bumps its attempts. `None` means deleted. */
  function Settled(it: PendingItem, reply: Result<Value, string>): Option<PendingItem> {
    match reply
    case Err(_) => Some(it)
    case Ok(v) =>
      if v == Null then Some(it)
      else if Present(Field(v, "success")) then None
      else Some(it.(attempts := it.attempts + 1))
  }

  /** How the drain loop treats the replayed record once the replay has
      answered: a throw, or a null reply whose `success` throws, is caught
      and leaves the store; a truthy `success` deletes the record; anything
      else saves it back with one more attempt. */
  function Settle(s: Store, it: PendingItem, reply: Result<Value, string>): Store {
    match reply
    case Err(_) => s
    case Ok(v) =>
      if v == Null then s
      else if Present(Field(v, "success")) then Delete(s, it.id)
      else Put(s, it.(attempts := it.attempts + 1))
  }

  /** One iteration of the drain loop on the store. */
  function SyncOne(s: Store, requestType: Option<string -> string>, it: PendingItem, e: Env): Store {
    var a := ReplayAction(requestType, it, e);
    Settle(Perform(s, a).store, it, a.Reply())
  }

  /** The store after the first `k` records of the snapshot were replayed,
      record `i` with the network and clock `env(i)`. */
  function Drain(s0: Store, snapshot: seq<PendingItem>, requestType: Option<string -> string>,
                 env: nat -> Env, k: nat): Store
    requires k <= |snapshot|
    decreases k
  {
    if k == 0 then s0
    else SyncOne(Drain(s0, snapshot, requestType, env, k - 1), requestType, snapshot[k - 1], env(k - 1))
  }

  /** A replay can only add records, under fresh keys. */
  lemma PerformFresh(s: Store, a: Action)
    requires WellFormed(s)
    ensures var t := Perform(s, a).store;
      && WellFormed(t) && t.nextId >= s.nextId
      && forall x: nat :: x < s.nextId ==> Lookup(t.items, x) == Lookup(s.items, x)
  {
    if a.Queue? {
      AppendAddsOne(s, a.kind, a.data, a.now);
    }
  }

  /** One iteration settles its own record as its reply says and leaves the
      record of every other existing key as it was. */
  /** Settling a record that the store holds under its key changes that
      key's record as the reply says and no other. */
  lemma SettleSpec(s: Store, it: PendingItem, reply: Result<Value, string>)
    requires WellFormed(s) && it.id < s.nextId && Lookup(s.items, it.id) == Some(it)
    ensures var t := Settle(s, it, reply);
      && WellFormed(t) && t.nextId == s.nextId
      && Lookup(t.items, it.id) == Settled(it, reply)
      && forall x: nat :: x != it.id ==> Lookup(t.items, x) == Lookup(s.items, x)
  {
    if reply.Ok? && reply.value != Null {
      if Present(Field(reply.value, "success")) {
        DeleteSpec(s, it.id);
      } else {
        PutSpec(s, it.(attempts := it.attempts + 1));
      }
    }
  }

  /** One iteration settles its own record as its reply says and leaves the
      record of every other existing key as it was. */
  lemma SyncOneSpec(s: Store, requestType: Option<string -> string>, it: PendingItem, e: Env)
    requires WellFormed(s) && it.id < s.nextId && Lookup(s.items, it.id) == Some(it)
    ensures var t := SyncOne(s, requestType, it, e);
      && WellFormed(t) && t.nextId >= s.nextId
      && Lookup(t.items, it.id) == Settled(it, ReplayAction(requestType, it, e).Reply())
      && forall x: nat :: x < s.nextId && x != it.id ==> Lookup(t.items, x) == Lookup(s.items, x)
  {
    var a := ReplayAction(requestType, it, e);
    PerformFresh(s, a);
    SettleSpec(Perform(s, a).store, it, a.Reply());
  }

  lemma {:induction false} BelowIndex(items: seq<PendingItem>, n: nat, i: nat)
    requires Below(items, n) && i < |items|
    ensures items[i].id < n
    decreases i
  {
    if i > 0 {
      BelowIndex(items[1..], n, i - 1);
    }
  }

  /** Draining the snapshot of a well-formed store settles each snapshot
      record exactly as its own replay's reply says, whatever the other
      replays do, and leaves the records not yet visited as they were. */
  lemma {:induction false} DrainSettles(s0: Store, requestType: Option<string -> string>,
                                        env: nat -> Env, k: nat)
    requires WellFormed(s0) && k <= |s0.items|
    ensures var t := Drain(s0, s0.items, requestType, env, k);
      && WellFormed(t) && t.nextId >= s0.nextId
      && (forall j :: 0 <= j < k ==>
            Lookup(t.items, s0.items[j].id) == Settled(s0.items[j], ReplayAction(requestType, s0.items[j], env(j)).Reply()))
      && (forall j :: k <= j < |s0.items| ==> Lookup(t.items, s0.items[j].id) == Some(s0.items[j]))
    decreases k
  {
    var snap := s0.items;
    if k == 0 {
      forall j | 0 <= j < |snap|
        ensures Lookup(snap, snap[j].id) == Some(snap[j])
      {
        LookupIndex(snap, j);
      }
    } else {
      DrainSettles(s0, requestType, env, k - 1);
      var d := Drain(s0, snap, requestType, env, k - 1);
      var it := snap[k - 1];
      BelowIndex(snap, s0.nextId, k - 1);
      SyncOneSpec(d, requestType, it, env(k - 1));
      var t := SyncOne(d, requestType, it, env(k - 1));
      assert t == Drain(s0, snap, requestType, env, k);
      forall j | 0 <= j < |snap| && j != k - 1
        ensures Lookup(t.items, snap[j].id) == Lookup(d.items, snap[j].id)
      {
        BelowIndex(snap, s0.nextId, j);
        if j < k - 1 {
          KeysIncrease(snap, j, k - 1);
        } else {
          KeysIncrease(snap, k - 1, j);
        }
      }
    }
  }
  /** The replay answered with a truthy `success`. */
  predicate Succeeded(reply: Result<Value, string>) {
    reply.Ok? && reply.value != Null && Present(Field(reply.value, "success"))
  }

  /** A drain deletes a snapshot record if and only if its replay answered
      with a truthy `success`; the number of attempts plays no part. */
  lemma DrainRemovesIffSucceeded(s0: Store, requestType: Option<string -> string>, env: nat -> Env, j: nat)
    requires WellFormed(s0) && j < |s0.items|
    ensures var t := Drain(s0, s0.items, requestType, env, |s0.items|);
      Lookup(t.items, s0.items[j].id).None? <==> Succeeded(ReplayAction(requestType, s0.items[j], env(j)).Reply())
  {
    DrainSettles(s0, requestType, env, |s0.items|);
  }

  /** A replay that answers without a truthy `success` leaves its record
      queued with exactly one more attempt; one that throws leaves it as it
      was. */
  lemma DrainKeepsFailures(s0: Store, requestType: Option<string -> string>, env: nat -> Env, j: nat)
    requires WellFormed(s0) && j < |s0.items|
    ensures var t := Drain(s0, s0.items, requestType, env, |s0.items|);
      var it := s0.items[j];
      var reply := ReplayAction(requestType, it, env(j)).Reply();
      && (reply.Err? ==> Lookup(t.items, it.id) == Some(it))
      && (reply.Ok? && reply.value != Null && !Succeeded(reply) ==>
            Lookup(t.items, it.id) == Some(it.(attempts := it.attempts + 1)))
  {
    DrainSettles(s0, requestType, env, |s0.items|);
  }

  /** A record of unknown type replays as `{success: false}`, so each drain
      only bumps its attempts and it is never removed. */
  lemma UnknownKindStaysQueued(s0: Store, requestType: Option<string -> string>, env: nat -> Env, j: nat)
    requires WellFormed(s0) && j < |s0.items|
    requires s0.items[j].kind != "attendance" && s0.items[j].kind != "member"
    ensures var t := Drain(s0, s0.items, requestType, env, |s0.items|);
      Lookup(t.items, s0.items[j].id) == Some(s0.items[j].(attempts := s0.items[j].attempts + 1))
  {
    var it := s0.items[j];
    var no := Obj(map["success" := Bool(false)]);
    assert ReplayAction(requestType, it, env(j)) == Answer(Ok(no));
    assert Settled(it, Ok(no)) == Some(it.(attempts := it.attempts + 1)) by {
      assert Field(no, "success") == Some(Bool(false));
    }
    DrainKeepsFailures(s0, requestType, env, j);
  }

  /** The server answers a replayed write with the stored row, which has no
      `success` field: the replay counts as a failure, the record stays
      queued and its attempts grow. */
  lemma ServerReplyKeepsRecord(s0: Store, requestType: Option<string -> string>, env: nat -> Env, j: nat)
    requires WellFormed(s0) && j < |s0.items|
    requires s0.items[j].kind == "member" || (s0.items[j].kind == "attendance" && s0.items[j].data != Null)
    requires env(j).net.Ok? && env(j).net.value.Obj? && "success" !in env(j).net.value.fields
    ensures var t := Drain(s0, s0.items, requestType, env, |s0.items|);
      Lookup(t.items, s0.items[j].id) == Some(s0.items[j].(attempts := s0.items[j].attempts + 1))
  {
    var reply := ReplayAction(requestType, s0.items[j], env(j)).Reply();
    assert reply == env(j).net;
    assert Field(env(j).net.value, "success") == None;
    DrainKeepsFailures(s0, requestType, env, j);
  }

  /** As written, a replay whose request fails throws the TypeError of the
      missing `getRequestType`, which the loop catches: the record stays as
      it was and nothing new is queued. */
  lemma FailedReplayWithoutRequestType(s: Store, it: PendingItem, msg: string, now: int)
    requires it.kind == "member" || (it.kind == "attendance" && it.data != Null)
    ensures ReplayAction(None, it, Env(Err(msg), now)).Reply() == Err(NotAFunction)
    ensures SyncOne(s, None, it, Env(Err(msg), now)) == s
  {
  }

  /** With a `getRequestType`, a replayed member whose request fails is
      queued a second time through the wrapper, under a fresh key, and the
      original record is kept with one more attempt. */
  lemma FailedReplayRequeues(s: Store, f: string -> string, it: PendingItem, msg: string, now: int)
    requires WellFormed(s) && it.id < s.nextId && Lookup(s.items, it.id) == Some(it)
    requires it.kind == "member" && it.data.Obj? && "success" !in it.data.fields
    ensures var t := SyncOne(s, Some(f), it, Env(Err(msg), now));
      && Lookup(t.items, s.nextId) == Some(PendingItem(s.nextId, f("/members"), it.data, now, 0))
      && Lookup(t.items, it.id) == Some(it.(attempts := it.attempts + 1))
      && |t.items| == |s.items| + 1
  {
    assert ReplayAction(Some(f), it, Env(Err(msg), now)) == Queue(f("/members"), it.data, now);
    var s1 := Append(s, f("/members"), it.data, now);
    AppendAddsOne(s, f("/members"), it.data, now);
    assert Field(Optimistic(it.data, now), "success") == None;
    SettleSpec(s1, it, Ok(Optimistic(it.data, now)));
    UpsertPresentLength(s1.items, it.(attempts := it.attempts + 1));
  }
  // ---------------------------------------------------------------------
  // The manager

  /** `OfflineManager`: the open database's `pending` store, its `members`
      mirror, and the `getRequestType` the wrapper calls (`None` while it
      is not defined). */
  class OfflineManager {
    var pending: seq<PendingItem>
    var nextId: nat
    const members: seq<map<string, Value>>
    const requestType: Option<string -> string>

    function State(): Store
      reads this
    {
      Store(pending, nextId)
    }

    ghost predicate Valid()
      reads this
    {
      WellFormed(State())
    }

    /** A fresh database: an empty `pending` store whose generator starts
        at 1. */
    constructor(members: seq<map<string, Value>>, requestType: Option<string -> string>)
      ensures Valid() && State() == Store([], 1)
      ensures this.members == members && this.requestType == requestType
    {
      pending := [];
      nextId := 1;
      this.members := members;
      this.requestType := requestType;
    }

    /** `saveOffline('pending', item)` for a record with its key. */
    method SaveOffline(it: PendingItem)
      requires Valid()
      modifies this
      ensures Valid() && State() == Put(old(State()), it)
    {
      PutSpec(State(), it);
      pending := Upsert(pending, it);
      if it.id >= nextId {
        nextId := it.id + 1;
      }
    }

    /** `addPendingData(type, data)`: queues a new record and returns its
        key. */
    method AddPendingData(kind: string, data: Value, now: int) returns (id: nat)
      requires Valid()
      modifies this
      ensures Valid() && State() == Append(old(State()), kind, data, now)
      ensures id == old(nextId)
    {
      AppendAddsOne(State(), kind, data, now);
      id := nextId;
      pending := pending + [PendingItem(id, kind, data, now, 0)];
      nextId := nextId + 1;
    }

    /** `removePendingData(id)`. */
    method RemovePendingData(id: nat)
      requires Valid()
      modifies this
      ensures Valid() && State() == Delete(old(State()), id)
    {
      DeleteSpec(State(), id);
      pending := Remove(pending, id);
    }

    /** `getAllOffline('pending')`: every record, in key order. */
    method GetAllPending() returns (items: seq<PendingItem>)
      requires Valid()
      ensures items == pending && Sorted(items)
    {
      items := pending;
    }

    /** `getPendingCount()`. */
    method GetPendingCount() returns (n: nat)
      requires Valid()
      ensures n == |pending|
    {
      var items := GetAllPending();
      n := |items|;
    }

    /** `hasPendingData()`. */
    method HasPendingData() returns (b: bool)
      requires Valid()
      ensures b <==> exists x: nat :: Lookup(pending, x).Some?
    {
      var items := GetAllPending();
      b := |items| > 0;
      if b {
        LookupIndex(items, 0);
      } else {
        assert forall x: nat :: Lookup(pending, x).None?;
      }
    }

    /** Queueing a POST for later, as the wrapper does. */
    method Enqueue(endpoint: string, body: Option<Value>, now: int) returns (r: Result<Value, string>)
      requires Valid()
      modifies this
      ensures Valid() && Outcome(State(), r) == Perform(old(State()), QueueAction(requestType, endpoint, body, now))
    {
      match requestType
      case None =>
        r := Err(NotAFunction);
      case Some(f) =>
        var kind := f(endpoint);
        if body.None? {
          r := Err(ParseUndefined);
        } else {
          var _ := AddPendingData(kind, body.value, now);
          r := Ok(Optimistic(body.value, now));
        }
    }

    /** The `window.db.request` wrapper. */
    method Request(endpoint: string, opts: Options, online: bool, e: Env) returns (r: Result<Value, string>)
      requires Valid()
      modifies this
      ensures Valid()
      ensures Outcome(State(), r) == Perform(old(State()), WrapAction(members, requestType, endpoint, opts, online, e))
    {
      if !online {
        if Contains(endpoint, "/members/active") {
          r := Ok(Arr(ActiveMembers(members)));
        } else if opts.httpMethod == Some("POST") {
          r := Enqueue(endpoint, opts.body, e.now);
        } else {
          r := Ok(Arr([]));
        }
        return;
      }
      match e.net
      case Ok(v) =>
        r := Ok(v);
      case Err(msg) =>
        if opts.httpMethod == Some("POST") {
          r := Enqueue(endpoint, opts.body, e.now);
        } else {
          r := Err(msg);
        }
    }

    /** `syncItem(item)`: replays one record through the wrapper, online. */
    method SyncItem(it: PendingItem, e: Env) returns (r: Result<Value, string>)
      requires Valid()
      modifies this
      ensures Valid()
      ensures Outcome(State(), r) == Perform(old(State()), ReplayAction(requestType, it, e))
    {
      if it.kind == "attendance" {
        if it.data == Null {
          r := Err(ReadOfNull);
        } else {
          var body := Api.AttendanceBody(Field(it.data, "memberId"), Field(it.data, "date"),
                                         Field(it.data, "status"), Field(it.data, "checkInTime"));
          r := Request("/attendance", Options(Some("POST"), Some(body)), true, e);
        }
      } else if it.kind == "member" {
        r := Request("/members", Options(Some("POST"), Some(it.data)), true, e);
      } else {
        r := Ok(Obj(map["success" := Bool(false)]));
      }
    }

    /** The body of the drain loop once `syncItem` has answered: a truthy
        `success` removes the record, any other reply saves it back with one
        more attempt, and a throw (including reading `success` of null) is
        caught. */
    method SettleReply(it: PendingItem, reply: Result<Value, string>)
      requires Valid()
      modifies this
      ensures Valid() && State() == Settle(old(State()), it, reply)
    {
      match reply {
        case Err(_) =>
        case Ok(v) =>
          if v == Null {
          } else if Present(Field(v, "success")) {
            RemovePendingData(it.id);
          } else {
            SaveOffline(it.(attempts := it.attempts + 1));
          }
      }
    }

    /** `syncPendingData()`: nothing while offline; otherwise each record of
        the snapshot taken at the start is replayed in key order, record `i`
        meeting the network and clock `env(i)`. */
    method SyncPendingData(online: bool, env: nat -> Env)
      requires Valid()
      modifies this
      ensures Valid()
      ensures !online ==> State() == old(State())
      ensures online ==> State() == Drain(old(State()), old(pending), requestType, env, |old(pending)|)
    {
      if !online {
        return;
      }
      ghost var s0 := State();
      var snapshot := GetAllPending();
      var i := 0;
      while i < |snapshot|
        invariant 0 <= i <= |snapshot| && snapshot == s0.items
        invariant Valid() && State() == Drain(s0, snapshot, requestType, env, i)
      {
        var it := snapshot[i];
        ghost var before := State();
        var reply := SyncItem(it, env(i));
        SettleReply(it, reply);
        assert State() == SyncOne(before, requestType, it, env(i));
        i := i + 1;
      }
    }
  }
}
