/** The persistent session store (crates/opencrust-db/src/session_store.rs)
    as a state machine over its two tables: `sessions`, keyed by id, and
    `messages`, whose `session_id` references a session with
    `ON DELETE CASCADE`.  Message order is insertion order; timestamps are
    not modelled. */
module SessionStore {
  import opened Common
  import opened Errors

  type usize = x: int | 0 <= x < 0x1_0000_0000_0000_0000

  datatype SessionRecord = SessionRecord(id: string, channelId: Option<string>, userId: Option<string>)

  datatype MessageRecord = MessageRecord(id: string, sessionId: string, role: string, content: string)

  /** Both tables; `messages` is in insertion order. */
  datatype Store = Store(sessions: map<string, SessionRecord>, messages: seq<MessageRecord>)

  /** The database's own constraints: each session row sits under its id,
      message ids are unique (PRIMARY KEY) and every message belongs to a
      live session (foreign keys are on). */
  ghost predicate Valid(st: Store) {
    (forall id :: id in st.sessions ==> st.sessions[id].id == id)
    && UniqueIds(st.messages)
    && (forall i :: 0 <= i < |st.messages| ==> st.messages[i].sessionId in st.sessions)
  }

  ghost predicate UniqueIds(ms: seq<MessageRecord>) {
    forall i, j :: 0 <= i < j < |ms| ==> ms[i].id != ms[j].id
  }

  lemma UniqueTail(ms: seq<MessageRecord>)
    requires ms != [] && UniqueIds(ms)
    ensures UniqueIds(ms[1..]) && forall m :: m in ms[1..] ==> m.id != ms[0].id
  {
    forall i, j | 0 <= i < j < |ms[1..]| ensures ms[1..][i].id != ms[1..][j].id {
      assert ms[1..][i] == ms[i + 1] && ms[1..][j] == ms[j + 1];
    }
    forall m | m in ms[1..] ensures m.id != ms[0].id {
      var k :| 0 <= k < |ms[1..]| && ms[1..][k] == m;
      assert ms[k + 1] == m;
    }
  }

  lemma UniqueCons(m: MessageRecord, rest: seq<MessageRecord>)
    requires UniqueIds(rest) && forall x :: x in rest ==> x.id != m.id
    ensures UniqueIds([m] + rest)
  {
    var r := [m] + rest;
    forall i, j | 0 <= i < j < |r| ensures r[i].id != r[j].id {
      assert r[j] == rest[j - 1] && rest[j - 1] in rest;
      if i > 0 {
        assert r[i] == rest[i - 1];
      }
    }
  }

  /** SQLite's messages for the two constraint violations. */
  const UniqueSessionId := "UNIQUE constraint failed: sessions.id"
  const UniqueMessageId := "UNIQUE constraint failed: messages.id"
  const ForeignKeyFailed := "FOREIGN KEY constraint failed"

  /** A freshly opened store. */
  function Empty(): Store {
    Store(map[], [])
  }

  lemma EmptyValid()
    ensures Valid(Empty()) && SessionCount(Empty()) == Ok(0)
  {
  }

  /** `create_session`. */
  function CreateSession(st: Store, id: string, userId: Option<string>, channelId: Option<string>): (r: Result<Store>)
    ensures r.Err? <==> id in st.sessions
    ensures r.Err? ==> r.error == Database("failed to create session: " + UniqueSessionId)
    ensures r.Ok? ==> r.value.messages == st.messages && id in r.value.sessions
                      && r.value.sessions.Keys == st.sessions.Keys + {id}
    ensures r.Ok? ==> r.value.sessions[id] == SessionRecord(id, channelId, userId)
                      && forall s :: s in st.sessions ==> r.value.sessions[s] == st.sessions[s]
  {
    if id in st.sessions then Err(Database("failed to create session: " + UniqueSessionId))
    else Ok(Store(st.sessions[id := SessionRecord(id, channelId, userId)], st.messages))
  }

  /** `get_session`: a missing row comes back as `None`. */
  function GetSession(st: Store, id: string): (r: Result<Option<SessionRecord>>)
    ensures r.Ok?
    ensures r.value.Some? <==> id in st.sessions
    ensures r.value.Some? ==> r.value.value == st.sessions[id]
    ensures Valid(st) && r.value.Some? ==> r.value.value.id == id
  {
    Ok(if id in st.sessions then Some(st.sessions[id]) else None)
  }

  /** The messages of one session, in insertion order. */
  function OfSession(messages: seq<MessageRecord>, sessionId: string): (r: seq<MessageRecord>)
    ensures |r| <= |messages|
    ensures forall m :: m in r <==> m in messages && m.sessionId == sessionId
  {
    if messages == [] then []
    else (if messages[0].sessionId == sessionId then [messages[0]] else []) + OfSession(messages[1..], sessionId)
  }

  lemma {:induction false} OfSessionAppend(a: seq<MessageRecord>, b: seq<MessageRecord>, sessionId: string)
    ensures OfSession(a + b, sessionId) == OfSession(a, sessionId) + OfSession(b, sessionId)
  {
    if a == [] {
      assert a + b == b;
    } else {
      assert (a + b)[1..] == a[1..] + b;
      OfSessionAppend(a[1..], b, sessionId);
    }
  }

  /** The messages that survive when `sessionId` is deleted. */
  function WithoutSession(messages: seq<MessageRecord>, sessionId: string): (r: seq<MessageRecord>)
    ensures |r| <= |messages|
    ensures forall m :: m in r <==> m in messages && m.sessionId != sessionId
  {
    if messages == [] then []
    else (if messages[0].sessionId != sessionId then [messages[0]] else []) + WithoutSession(messages[1..], sessionId)
  }

  /** Deleting one session leaves every other session's history intact. */
  lemma {:induction false} WithoutSessionKeepsOthers(messages: seq<MessageRecord>, gone: string, other: string)
    requires gone != other
    ensures OfSession(WithoutSession(messages, gone), other) == OfSession(messages, other)
    ensures OfSession(WithoutSession(messages, gone), gone) == []
  {
    if messages != [] {
      WithoutSessionKeepsOthers(messages[1..], gone, other);
      var head := if messages[0].sessionId != gone then [messages[0]] else [];
      OfSessionAppend(head, WithoutSession(messages[1..], gone), other);
      OfSessionAppend(head, WithoutSession(messages[1..], gone), gone);
      assert head == [] || head[1..] == [];
    }
  }

  /** A subsequence of distinct ids still has distinct ids. */
  lemma {:induction false} WithoutSessionUnique(messages: seq<MessageRecord>, gone: string)
    requires UniqueIds(messages)
    ensures UniqueIds(WithoutSession(messages, gone))
  {
    if messages != [] {
      UniqueTail(messages);
      WithoutSessionUnique(messages[1..], gone);
      if messages[0].sessionId != gone {
        UniqueCons(messages[0], WithoutSession(messages[1..], gone));
      }
    }
  }

  /** `delete_session`: the session row goes, and the cascade takes its
      messages with it.  Deleting an id that does not exist changes
      nothing. */
  function DeleteSession(st: Store, id: string): (r: Result<Store>)
    ensures r.Ok?
    ensures id !in r.value.sessions && r.value.sessions.Keys == st.sessions.Keys - {id}
    ensures forall s :: s in r.value.sessions ==> r.value.sessions[s] == st.sessions[s]
    ensures forall m :: m in r.value.messages <==> m in st.messages && m.sessionId != id
  {
    Ok(Store(st.sessions - {id}, WithoutSession(st.messages, id)))
  }

  /** Each operation keeps the database's constraints. */
  lemma CreateSessionValid(st: Store, id: string, userId: Option<string>, channelId: Option<string>)
    requires Valid(st) && CreateSession(st, id, userId, channelId).Ok?
    ensures Valid(CreateSession(st, id, userId, channelId).value)
  {
  }

  lemma DeleteSessionValid(st: Store, id: string)
    requires Valid(st)
    ensures Valid(DeleteSession(st, id).value)
  {
    var r := DeleteSession(st, id).value;
    WithoutSessionUnique(st.messages, id);
    forall i | 0 <= i < |r.messages| ensures r.messages[i].sessionId in r.sessions {
      assert r.messages[i] in st.messages;
      var k :| 0 <= k < |st.messages| && st.messages[k] == r.messages[i];
    }
  }

  /** `append_message` with `newId` as the freshly drawn UUID.  SQLite
      checks the primary key before the foreign key. */
  function AppendMessage(st: Store, sessionId: string, role: string, content: string, newId: string): (r: Result<(Store, string)>)
    ensures r.Ok? <==> sessionId in st.sessions && forall m :: m in st.messages ==> m.id != newId
    ensures r.Ok? ==> r.value.1 == newId && r.value.0.sessions == st.sessions
                      && r.value.0.messages == st.messages + [MessageRecord(newId, sessionId, role, content)]
    ensures r.Err? && sessionId !in st.sessions && (forall m :: m in st.messages ==> m.id != newId) ==>
              r.error == Database("failed to append message: " + ForeignKeyFailed)
  {
    if exists m :: m in st.messages && m.id == newId then
      Err(Database("failed to append message: " + UniqueMessageId))
    else if sessionId !in st.sessions then
      Err(Database("failed to append message: " + ForeignKeyFailed))
    else
      Ok((Store(st.sessions, st.messages + [MessageRecord(newId, sessionId, role, content)]), newId))
  }

  lemma OfSessionStep(messages: seq<MessageRecord>, i: nat, sessionId: string)
    requires i < |messages|
    ensures OfSession(messages[..i + 1], sessionId)
         == OfSession(messages[..i], sessionId) + (if messages[i].sessionId == sessionId then [messages[i]] else [])
  {
    assert messages[..i + 1] == messages[..i] + [messages[i]];
    OfSessionAppend(messages[..i], [messages[i]], sessionId);
    assert [messages[i]][1..] == [];
  }

  lemma OfSessionSplit(messages: seq<MessageRecord>, i: nat, sessionId: string)
    requires i <= |messages|
    ensures OfSession(messages, sessionId) == OfSession(messages[..i], sessionId) + OfSession(messages[i..], sessionId)
  {
    assert messages == messages[..i] + messages[i..];
    OfSessionAppend(messages[..i], messages[i..], sessionId);
  }

  lemma AppendMessageValid(st: Store, sessionId: string, role: string, content: string, newId: string)
    requires Valid(st) && AppendMessage(st, sessionId, role, content, newId).Ok?
    ensures Valid(AppendMessage(st, sessionId, role, content, newId).value.0)
  {
    var m := MessageRecord(newId, sessionId, role, content);
    var r := st.messages + [m];
    forall i, j | 0 <= i < j < |r| ensures r[i].id != r[j].id {
      if j == |r| - 1 {
        assert r[i] == st.messages[i] && st.messages[i] in st.messages;
      }
    }
  }

  /** `limit as i64`: the two's-complement reading of the 64-bit pattern,
      so a `usize` at or above 2^63 turns negative. */
  function WrapToI64(u: usize): (r: int)
    ensures -0x8000_0000_0000_0000 <= r < 0x8000_0000_0000_0000
    ensures r < 0 <==> u >= 0x8000_0000_0000_0000
    ensures (r - u) % 0x1_0000_0000_0000_0000 == 0
  {
    if u < 0x8000_0000_0000_0000 then u else u - 0x1_0000_0000_0000_0000
  }

  /** How many of `available` rows SQLite returns under `LIMIT l`: a
      negative limit means no limit at all. */
  function SqliteLimit(l: int, available: nat): (n: nat)
    ensures n <= available
    ensures l < 0 ==> n == available
    ensures 0 <= l ==> n == Min(l, available)
  {
    if l < 0 || l >= available then available else l
  }

  function Min(a: int, b: int): int {
    if a < b then a else b
  }

  /** The number of rows `get_messages` returns: the `usize` limit goes
      through the cast, then through SQLite's LIMIT rule. */
  function EffectiveLimit(limit: usize, available: nat): nat {
    SqliteLimit(WrapToI64(limit), available)
  }

  /** What the two steps amount to: a limit that fits in `i64` caps the
      rows, and a larger one lifts the cap entirely. */
  lemma EffectiveLimitMeaning(limit: usize, available: nat)
    ensures EffectiveLimit(limit, available) <= available
    ensures limit < 0x8000_0000_0000_0000 ==> EffectiveLimit(limit, available) == Min(limit, available)
    ensures limit >= 0x8000_0000_0000_0000 ==> EffectiveLimit(limit, available) == available
  {
  }

  /** `get_messages`: scans the messages in insertion order and keeps the
      first `limit` of the session's. */
  method GetMessages(st: Store, sessionId: string, limit: usize) returns (r: Result<seq<MessageRecord>>)
    ensures r.Ok?
    ensures r.value == OfSession(st.messages, sessionId)[..EffectiveLimit(limit, |OfSession(st.messages, sessionId)|)]
    ensures forall m :: m in r.value ==> m in st.messages && m.sessionId == sessionId
  {
    var all := OfSession(st.messages, sessionId);
    var n := EffectiveLimit(limit, |all|);
    var out: seq<MessageRecord> := [];
    var i := 0;
    while i < |st.messages| && |out| < n
      invariant 0 <= i <= |st.messages|
      invariant out == OfSession(st.messages[..i], sessionId)
      invariant |out| <= n
    {
      OfSessionStep(st.messages, i, sessionId);
      if st.messages[i].sessionId == sessionId {
        out := out + [st.messages[i]];
      }
      i := i + 1;
    }
    OfSessionSplit(st.messages, i, sessionId);
    assert i == |st.messages| ==> st.messages[..i] == st.messages;
    assert all == out + OfSession(st.messages[i..], sessionId);
    assert all[..n] == out;
    r := Ok(out);
  }

  /** `session_count`: the number of live sessions. */
  function SessionCount(st: Store): (r: Result<nat>)
    ensures r == Ok(|st.sessions.Keys|)
  {
    Ok(|st.sessions|)
  }

  /** Creating then reading a session gives back what was stored, absent
      user and channel included. */
  lemma CreateThenGet(st: Store, id: string, userId: Option<string>, channelId: Option<string>)
    requires id !in st.sessions
    ensures CreateSession(st, id, userId, channelId).Ok?
    ensures GetSession(CreateSession(st, id, userId, channelId).value, id)
         == Ok(Some(SessionRecord(id, channelId, userId)))
  {
  }

  /** After a delete the session is gone and its history is empty; other
      sessions keep theirs. */
  lemma DeleteThenGet(st: Store, id: string, other: string)
    requires id != other
    ensures GetSession(DeleteSession(st, id).value, id) == Ok(None)
    ensures OfSession(DeleteSession(st, id).value.messages, id) == []
    ensures OfSession(DeleteSession(st, id).value.messages, other) == OfSession(st.messages, other)
    ensures GetSession(DeleteSession(st, id).value, other) == GetSession(st, other)
  {
    WithoutSessionKeepsOthers(st.messages, id, other);
  }

  /** Appending to a session extends its history by exactly that message and
      leaves every other session's history alone. */
  lemma AppendThenHistory(st: Store, sessionId: string, role: string, content: string, newId: string, other: string)
    requires AppendMessage(st, sessionId, role, content, newId).Ok?
    ensures var st' := AppendMessage(st, sessionId, role, content, newId).value.0;
            OfSession(st'.messages, sessionId) == OfSession(st.messages, sessionId) + [MessageRecord(newId, sessionId, role, content)]
            && (other != sessionId ==> OfSession(st'.messages, other) == OfSession(st.messages, other))
  {
    var m := MessageRecord(newId, sessionId, role, content);
    OfSessionAppend(st.messages, [m], sessionId);
    OfSessionAppend(st.messages, [m], other);
    assert [m][1..] == [];
  }

  /** Creating a new id adds one to the count; deleting a live id takes one
      away; anything else leaves it. */
  lemma SessionCountTracks(st: Store, id: string)
    ensures id !in st.sessions ==>
              SessionCount(CreateSession(st, id, None, None).value) == Ok(|st.sessions| + 1)
    ensures id in st.sessions ==>
              SessionCount(DeleteSession(st, id).value) == Ok(|st.sessions| - 1)
    ensures id !in st.sessions ==> SessionCount(DeleteSession(st, id).value) == SessionCount(st)
  {
    if id in st.sessions {
      assert st.sessions.Keys == (st.sessions.Keys - {id}) + {id};
    } else {
      assert (st.sessions - {id}).Keys == st.sessions.Keys;
    }
  }

  /** The count scenario: two creates on an empty store count two, and a
      delete brings it back to one. */
  lemma SessionCountScenario()
    ensures SessionCount(Empty()) == Ok(0)
    ensures var s2 := CreateSession(CreateSession(Empty(), "a", None, None).value, "b", None, None).value;
            SessionCount(s2) == Ok(2) && SessionCount(DeleteSession(s2, "a").value) == Ok(1)
  {
    var ra, rb := SessionRecord("a", None, None), SessionRecord("b", None, None);
    assert CreateSession(Empty(), "a", None, None).value.sessions == map["a" := ra];
    assert "a" != "b";
    var s2 := CreateSession(CreateSession(Empty(), "a", None, None).value, "b", None, None).value;
    assert s2.sessions == map["a" := ra, "b" := rb];
    assert |s2.sessions| == 2;
    assert DeleteSession(s2, "a").value.sessions == map["b" := rb];
  }

  /** A second create with a live id fails on the primary key and changes
      nothing. */
  lemma DuplicateCreateFails(st: Store, id: string, u: Option<string>, c: Option<string>)
    requires id in st.sessions
    ensures CreateSession(st, id, u, c) == Err(Database("failed to create session: " + UniqueSessionId))
  {
  }
}
