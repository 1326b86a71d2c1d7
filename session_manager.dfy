/** The server-side session store: session records kept in Redis under
    `session:<id>` with a 24-hour time to live. Redis is modelled as a table
    from keys to entries that carry an absolute expiry time, together with the
    current time; a key is live while its expiry lies in the future. The
    stored text is the record's JSON, and reading it back gives the record
    again, so the table holds the records themselves. */
module SessionManager {
  import opened Wrappers

  /** The keys of a session record. */
  datatype Field =
    | user_id | token | email | expired_date | refresh_token | refresh_expired_date
    | latest_action | otp | role_list | role_group_id | customer_id | customer_name
    | customer_code | customer_phone | price_list_id | price_list_version_id
    | customer_type_id | customer_level_name | customer_address | salesman_id
    | salesman_name | salesman_code | logincode

  /** Every key `SessionData` declares. */
  const FieldSet: set<Field> := {
    user_id, token, email, expired_date, refresh_token, refresh_expired_date,
    latest_action, otp, role_list, role_group_id, customer_id, customer_name,
    customer_code, customer_phone, price_list_id, price_list_version_id,
    customer_type_id, customer_level_name, customer_address, salesman_id,
    salesman_name, salesman_code, logincode
  }

  lemma FieldIsListed(f: Field)
    ensures f in FieldSet
  {
  }

  lemma EveryFieldIsListed()
    ensures forall f :: f in FieldSet
  {
    forall f ensures f in FieldSet {
      FieldIsListed(f);
    }
  }

  /** The set of all keys; callers see only that it holds every key. */
  function AllFields(): (fs: set<Field>)
    ensures forall f :: f in fs
  {
    EveryFieldIsListed();
    FieldSet
  }

  /** The fields typed `string | null`. */
  predicate Nullable(f: Field)
  {
    match f
    case customer_code | price_list_id | price_list_version_id | customer_type_id
       | customer_level_name | customer_address | salesman_id | salesman_name
       | salesman_code | logincode => true
    case _ => false
  }

  /** A JavaScript value of a record field. */
  datatype Value = Undefined | Null | Str(s: string)

  /** JavaScript truthiness: undefined, null and '' are falsy. */
  predicate Truthy(v: Value)
  {
    v.Str? && v.s != ""
  }

  /** A record: its keys with their values. A key that is absent reads as
      undefined, and JSON never stores an undefined value. */
  type Record = map<Field, Value>

  predicate Stored(d: Record)
  {
    forall f :: f in d ==> d[f] != Undefined
  }

  /** `record[f]`. */
  function Lookup(d: Record, f: Field): Value
  {
    if f in d then d[f] else Undefined
  }

  /** The login data `createSession` receives: `user_id` and `token`, and any
      of the other fields (a missing one is undefined). */
  datatype LoginData = LoginData(user_id: string, token: string, others: Record)

  /** What a falsy input becomes: '' for a string field, null for a nullable one. */
  function Default(f: Field): Value
  {
    if Nullable(f) then Null else Str("")
  }

  /** The record `createSession` stores (lines 48-72): every key present,
      none undefined; `BuildField` says what each field holds. */
  function Build(u: LoginData): (d: Record)
    ensures forall f :: f in d
    ensures Stored(d)
  {
    map f | f in AllFields() :: BuildValue(u, f)
  }

  /** One field of the built record. */
  function BuildValue(u: LoginData, f: Field): (v: Value)
    ensures v != Undefined
  {
    if f == user_id then Str(u.user_id)
    else if f == token then Str(u.token)
    else if Truthy(Lookup(u.others, f)) then Lookup(u.others, f)
    else Default(f)
  }

  /** `user_id` and `token` are copied verbatim; any other field keeps a
      truthy input and otherwise falls back to '' or, when nullable, null.
      So a built record has a string in every string field and never '' in
      a nullable one. */
  lemma BuildField(u: LoginData, f: Field)
    ensures f == user_id ==> Build(u)[f] == Str(u.user_id)
    ensures f == token ==> Build(u)[f] == Str(u.token)
    ensures f != user_id && f != token && Truthy(Lookup(u.others, f)) ==> Build(u)[f] == Lookup(u.others, f)
    ensures f != user_id && f != token && !Truthy(Lookup(u.others, f)) ==> Build(u)[f] == (if Nullable(f) then Null else Str(""))
    ensures !Nullable(f) ==> Build(u)[f].Str?
    ensures Nullable(f) ==> Build(u)[f] != Str("")
  {
  }

  /** A built record, given back as login data. */
  function Rebuilt(u: LoginData): LoginData
  {
    var d := Build(u);
    LoginData(d[user_id].s, d[token].s, d)
  }

  lemma BuildAgainField(u: LoginData, f: Field)
    ensures Build(Rebuilt(u))[f] == Build(u)[f]
  {
    BuildField(u, user_id);
    BuildField(u, token);
    BuildField(u, f);
    BuildField(Rebuilt(u), f);
  }

  /** Building again from a built record gives the same record. */
  lemma BuildIdempotent(u: LoginData)
    ensures Build(Rebuilt(u)) == Build(u)
  {
    var d, e := Build(u), Build(Rebuilt(u));
    forall f ensures e[f] == d[f] {
      BuildAgainField(u, f);
    }
    assert e.Keys == d.Keys;
  }

  /** `{ ...current, ...patch }` read back through JSON: a field in the patch
      takes the patch's value (an undefined one disappears), every other
      field keeps its current value. */
  function Merge(current: Record, patch: Record): (d: Record)
    ensures forall f :: Lookup(d, f) == MergedValue(current, patch, f)
  {
    map f | f in current.Keys + patch.Keys && MergedValue(current, patch, f) != Undefined ::
      MergedValue(current, patch, f)
  }

  /** A field of the merged record: the patch's value when the patch has the
      field, the current value otherwise. */
  function MergedValue(current: Record, patch: Record, f: Field): Value
  {
    if f in patch then patch[f] else Lookup(current, f)
  }

  /** Records are equal when they read the same on every field. */
  lemma {:induction false} LookupExtensional(a: Record, b: Record)
    requires Stored(a) && Stored(b)
    requires forall f :: Lookup(a, f) == Lookup(b, f)
    ensures a == b
  {
    forall f | f in a ensures f in b && a[f] == b[f] {
      assert Lookup(a, f) == a[f];
    }
    forall f | f in b ensures f in a {
      assert Lookup(b, f) == b[f];
    }
  }

  lemma MergeStored(current: Record, patch: Record)
    ensures Stored(Merge(current, patch))
  {
    var d := Merge(current, patch);
    forall f | f in d ensures d[f] != Undefined {
      assert Lookup(d, f) == d[f];
    }
  }

  /** An empty patch changes nothing. */
  lemma MergeEmpty(current: Record)
    requires Stored(current)
    ensures Merge(current, map[]) == current
  {
    MergeStored(current, map[]);
    LookupExtensional(Merge(current, map[]), current);
  }

  /** Applying the same patch twice is applying it once. */
  lemma MergeIdempotent(current: Record, patch: Record)
    ensures Merge(Merge(current, patch), patch) == Merge(current, patch)
  {
    MergeStored(current, patch);
    MergeStored(Merge(current, patch), patch);
    LookupExtensional(Merge(Merge(current, patch), patch), Merge(current, patch));
  }

  /** A later patch wins over an earlier one on the fields both set. */
  lemma MergeCompose(current: Record, p: Record, q: Record)
    ensures Merge(Merge(current, p), q) == Merge(current, p + q)
  {
    MergeStored(Merge(current, p), q);
    MergeStored(current, p + q);
    LookupExtensional(Merge(Merge(current, p), q), Merge(current, p + q));
  }

  /** `SESSION_EXPIRY_SECONDS`: 24 hours. */
  const ExpirySeconds: nat := 24 * 60 * 60

  /** `session:${sessionId}`: the fixed prefix, then the id. */
  function SessionKey(id: string): (key: string)
    ensures |key| == |id| + 8 && key[..8] == "session:" && key[8..] == id
  {
    "session:" + id
  }

  lemma SessionKeyInjective(a: string, b: string)
    requires SessionKey(a) == SessionKey(b)
    ensures a == b
  {
    assert a == SessionKey(a)[8..];
  }

  /** A stored value and the time at which Redis drops it. */
  datatype Entry = Entry(data: Record, expiresAt: int)

  /** The Redis table and the clock. */
  datatype Store = Store(entries: map<string, Entry>, now: int)

  predicate Live(s: Store, key: string)
  {
    key in s.entries && s.entries[key].expiresAt > s.now
  }

  /** Time passes; entries whose expiry is reached stop being live. */
  function Advance(s: Store, seconds: nat): Store
  {
    Store(s.entries, s.now + seconds)
  }

  // The Redis commands the store uses.

  /** `SETEX key ttl value`: store the value with a fresh expiry. */
  function SetEx(s: Store, key: string, ttl: nat, v: Record): (t: Store)
    ensures Live(t, key) || ttl == 0
    ensures key in t.entries && t.entries[key] == Entry(v, s.now + ttl)
  {
    Store(s.entries[key := Entry(v, s.now + ttl)], s.now)
  }

  /** `GET key`: the live value, or nothing. */
  function RedisGet(s: Store, key: string): Option<Record>
  {
    if Live(s, key) then Some(s.entries[key].data) else None
  }

  /** `DEL key`: the key is gone; the count says whether it was live. */
  function Del(s: Store, key: string): (Store, nat)
  {
    (Store(s.entries - {key}, s.now), if Live(s, key) then 1 else 0)
  }

  /** `EXPIRE key ttl`: a live key gets a fresh expiry (1); otherwise 0. */
  function Expire(s: Store, key: string, ttl: nat): (Store, nat)
  {
    if Live(s, key) then (Store(s.entries[key := Entry(s.entries[key].data, s.now + ttl)], s.now), 1)
    else (s, 0)
  }

  // What the session operations do when Redis does not fail.

  /** `getSession(id)`: the live record, or null. */
  function Read(s: Store, id: string): Option<Record>
  {
    RedisGet(s, SessionKey(id))
  }

  /** The store after `createSession(u)` with the fresh id `id`. */
  function Created(s: Store, u: LoginData, id: string): Store
  {
    SetEx(s, SessionKey(id), ExpirySeconds, Build(u))
  }

  /** The store after `updateSession(id, patch)`, and its result. */
  function Updated(s: Store, id: string, patch: Record): (Store, bool)
  {
    var key := SessionKey(id);
    if !Live(s, key) then (s, false)
    else (SetEx(s, key, ExpirySeconds, Merge(s.entries[key].data, patch)), true)
  }

  /** The store after `deleteSession(id)`, and its result. */
  function Deleted(s: Store, id: string): (Store, bool)
  {
    var (t, n) := Del(s, SessionKey(id));
    (t, n > 0)
  }

  /** The store after `extendSession(id)`, and its result. */
  function Extended(s: Store, id: string): (Store, bool)
  {
    var key := SessionKey(id);
    if !Live(s, key) then (s, false)
    else
      var (t, n) := Expire(s, key, ExpirySeconds);
      (t, n == 1)
  }

  /** Whether two stores agree on every key but `key`. */
  predicate SameElsewhere(s: Store, t: Store, key: string)
  {
    s.now == t.now && s.entries - {key} == t.entries - {key}
  }

  /** Right after `createSession`, the session is live for a day and reads
      back as the built record; nothing else changes. */
  lemma CreateThenRead(s: Store, u: LoginData, id: string)
    ensures var t := Created(s, u, id);
      && Read(t, id) == Some(Build(u))
      && t.entries[SessionKey(id)].expiresAt == s.now + 86400
      && SameElsewhere(s, t, SessionKey(id))
  {
  }

  /** A session expires once a day has passed, and not before. */
  lemma CreatedSessionExpires(s: Store, u: LoginData, id: string, seconds: nat)
    ensures Read(Advance(Created(s, u, id), seconds), id)
         == if seconds < 86400 then Some(Build(u)) else None
  {
  }

  /** Reading a session gives null exactly when its key is missing or
      expired. */
  lemma ReadOfDeadKey(s: Store, id: string)
    ensures Read(s, id).None? <==> !Live(s, SessionKey(id))
  {
  }

  /** Updating a session that is not live fails and changes nothing. */
  lemma UpdateDead(s: Store, id: string, patch: Record)
    requires !Live(s, SessionKey(id))
    ensures Updated(s, id, patch) == (s, false)
  {
  }

  /** Updating a live session stores the merged record with a fresh day. */
  lemma UpdateLive(s: Store, id: string, patch: Record)
    requires Live(s, SessionKey(id))
    ensures var (t, ok) := Updated(s, id, patch);
      && ok
      && Read(t, id) == Some(Merge(Read(s, id).value, patch))
      && t.entries[SessionKey(id)].expiresAt == s.now + ExpirySeconds
      && SameElsewhere(s, t, SessionKey(id))
  {
  }

  /** The fields the patch leaves out keep their values across an update. */
  lemma UpdateKeepsOtherFields(s: Store, id: string, patch: Record, f: Field)
    requires Live(s, SessionKey(id)) && f !in patch
    ensures Lookup(Read(Updated(s, id, patch).0, id).value, f) == Lookup(Read(s, id).value, f)
  {
  }

  /** Deleting reports whether the session was live; afterwards it is gone,
      and nothing else changes. */
  lemma DeleteReports(s: Store, id: string)
    ensures var (t, ok) := Deleted(s, id);
      && (ok <==> Live(s, SessionKey(id)))
      && Read(t, id).None?
      && SameElsewhere(s, t, SessionKey(id))
  {
  }

  /** A second delete of the same session reports false. */
  lemma DeleteTwice(s: Store, id: string)
    ensures Deleted(Deleted(s, id).0, id).1 == false
  {
  }

  /** Extending fails on a session that is not live; on a live one it keeps
      the record and moves the expiry to a day from now. */
  lemma ExtendReports(s: Store, id: string)
    ensures var (t, ok) := Extended(s, id);
      && (ok <==> Live(s, SessionKey(id)))
      && (!ok ==> t == s)
      && (ok ==> Read(t, id) == Read(s, id)
                 && t.entries[SessionKey(id)].expiresAt == s.now + ExpirySeconds
                 && SameElsewhere(s, t, SessionKey(id)))
  {
  }

  /** The Redis connection with its table. Each session operation takes a
      `fault` flag that stands for a Redis command throwing. The model assumes
      that a command that throws had no effect, so a fault leaves the table as
      it was. */
  class SessionStore {
    var entries: map<string, Entry>
    var now: int

    function State(): Store
      reads this
    {
      Store(entries, now)
    }

    constructor (start: int)
      ensures State() == Store(map[], start)
    {
      entries := map[];
      now := start;
    }

    /** The clock moves on. */
    method Tick(seconds: nat)
      modifies this
      ensures State() == Advance(old(State()), seconds)
    {
      now := now + seconds;
    }

    method SetExCommand(key: string, ttl: nat, v: Record)
      modifies this
      ensures State() == SetEx(old(State()), key, ttl, v)
    {
      entries := entries[key := Entry(v, now + ttl)];
    }

    method GetCommand(key: string) returns (v: Option<Record>)
      ensures v == RedisGet(State(), key)
    {
      if key in entries && entries[key].expiresAt > now {
        v := Some(entries[key].data);
      } else {
        v := None;
      }
    }

    /** `EXISTS key`: 1 for a live key, 0 otherwise. */
    method ExistsCommand(key: string) returns (n: nat)
      ensures n == if Live(State(), key) then 1 else 0
    {
      n := if key in entries && entries[key].expiresAt > now then 1 else 0;
    }

    method DelCommand(key: string) returns (n: nat)
      modifies this
      ensures (State(), n) == Del(old(State()), key)
    {
      n := if key in entries && entries[key].expiresAt > now then 1 else 0;
      entries := entries - {key};
    }

    method ExpireCommand(key: string, ttl: nat) returns (n: nat)
      modifies this
      ensures (State(), n) == Expire(old(State()), key, ttl)
    {
      if key in entries && entries[key].expiresAt > now {
        entries := entries[key := Entry(entries[key].data, now + ttl)];
        n := 1;
      } else {
        n := 0;
      }
    }

    /** `createSession(userData)`, with `id` the fresh uuid: stores the built
        record for a day and returns the id, or fails. */
    method CreateSession(u: LoginData, id: string, fault: bool) returns (r: Result<string>)
      modifies this
      ensures fault ==> r == Err("Failed to create session") && State() == old(State())
      ensures !fault ==> r == Ok(id) && State() == Created(old(State()), u, id)
    {
      var sessionKey := SessionKey(id);
      var sessionData := Build(u);
      if fault {
        return Err("Failed to create session");
      }
      SetExCommand(sessionKey, ExpirySeconds, sessionData);
      return Ok(id);
    }

    /** `getSession(sessionId)`: the live record; null when the key is gone,
        has expired or Redis fails. */
    method GetSession(id: string, fault: bool) returns (r: Option<Record>)
      ensures r == if fault then None else Read(State(), id)
    {
      if fault {
        return None;
      }
      r := GetCommand(SessionKey(id));
    }

    /** `updateSession(sessionId, userData)`. */
    method UpdateSession(id: string, patch: Record, fault: bool) returns (ok: bool)
      modifies this
      ensures (State(), ok) == if fault then (old(State()), false) else Updated(old(State()), id, patch)
    {
      if fault {
        return false;
      }
      var sessionKey := SessionKey(id);
      var found := ExistsCommand(sessionKey);
      if found == 0 {
        return false;
      }
      var current := GetCommand(sessionKey);
      if current.None? {
        return false;
      }
      var updated := Merge(current.value, patch);
      SetExCommand(sessionKey, ExpirySeconds, updated);
      return true;
    }

    /** `deleteSession(sessionId)`. */
    method DeleteSession(id: string, fault: bool) returns (deleted: bool)
      modifies this
      ensures (State(), deleted) == if fault then (old(State()), false) else Deleted(old(State()), id)
    {
      if fault {
        return false;
      }
      var result := DelCommand(SessionKey(id));
      deleted := result > 0;
    }

    /** `extendSession(sessionId)`. */
    method ExtendSession(id: string, fault: bool) returns (extended: bool)
      modifies this
      ensures (State(), extended) == if fault then (old(State()), false) else Extended(old(State()), id)
    {
      if fault {
        return false;
      }
      var sessionKey := SessionKey(id);
      var found := ExistsCommand(sessionKey);
      if found == 0 {
        return false;
      }
      var result := ExpireCommand(sessionKey, ExpirySeconds);
      extended := result == 1;
    }
  }
}
