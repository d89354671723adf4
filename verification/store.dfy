/**
 * The conversation store of `database.py`. The two Firestore collections become two
 * fields of an in-memory `Database`: `conversations`, the message documents in the
 * order they were added, and `sessions`, the session documents keyed by session id.
 * A natural-number `clock`, advanced by every save, stands in for the server
 * timestamp, and `recency` is the index Firestore keeps to answer
 * `order_by('last_activity', DESCENDING)`: the session ids, most recent first.
 */
module Store {
  import opened Messages

  /** A document of the `conversations` collection. */
  datatype Record = Record(sessionId: string, model: string, role: Role, content: string, timestamp: nat)

  /** A document of the `sessions` collection. */
  datatype SessionRecord = SessionRecord(sessionId: string, createdAt: nat, lastActivity: nat)

  /** One entry returned by `get_conversation`: a (role, content) pair when a model is
      given, a (model, role, content) triple when the model is absent or empty. */
  datatype Row = Pair(role: Role, content: string) | Triple(model: string, role: Role, content: string)

  /** The query of `get_conversation`: the session always, the model only when it is truthy. */
  predicate Selects(r: Record, sessionId: string, model: string) {
    r.sessionId == sessionId && (model == "" || r.model == model)
  }

  /** The records a query selects, in the order they were saved. */
  function Matching(cs: seq<Record>, sessionId: string, model: string): (r: seq<Record>)
    ensures |r| <= |cs|
    ensures forall x :: x in r <==> x in cs && Selects(x, sessionId, model)
  {
    if cs == [] then []
    else
      var last := cs[|cs| - 1];
      Matching(cs[..|cs| - 1], sessionId, model) + (if Selects(last, sessionId, model) then [last] else [])
  }

  function RowOf(r: Record, model: string): Row {
    if model != "" then Pair(r.role, r.content) else Triple(r.model, r.role, r.content)
  }

  function AsRows(rs: seq<Record>, model: string): seq<Row> {
    seq(|rs|, k requires 0 <= k < |rs| => RowOf(rs[k], model))
  }

  function AsMessages(rs: seq<Record>): seq<Message> {
    seq(|rs|, k requires 0 <= k < |rs| => Message(rs[k].role, rs[k].content))
  }

  /** What `get_conversation(session_id, model)` returns when the store holds `cs`. */
  function View(cs: seq<Record>, sessionId: string, model: string): seq<Row> {
    AsRows(Matching(cs, sessionId, model), model)
  }

  /** The same selection as the messages a provider conversation is built from. */
  function History(cs: seq<Record>, sessionId: string, model: string): seq<Message> {
    AsMessages(Matching(cs, sessionId, model))
  }

  /** The records of every session other than `sessionId`, in save order. */
  function Others(cs: seq<Record>, sessionId: string): (r: seq<Record>)
    ensures |r| <= |cs|
    ensures forall x :: x in r <==> x in cs && x.sessionId != sessionId
  {
    if cs == [] then []
    else
      var last := cs[|cs| - 1];
      Others(cs[..|cs| - 1], sessionId) + (if last.sessionId != sessionId then [last] else [])
  }

  /** The deletion loop of `clear_session`: every record of the session is dropped, the
      others are kept in order. */
  method Filter(cs: seq<Record>, sessionId: string) returns (kept: seq<Record>)
    ensures kept == Others(cs, sessionId)
  {
    kept := [];
    for k := 0 to |cs|
      invariant kept == Others(cs[..k], sessionId)
    {
      assert cs[..k + 1][..k] == cs[..k];
      if cs[k].sessionId != sessionId {
        kept := kept + [cs[k]];
      }
    }
    assert cs[..|cs|] == cs;
  }

  /** Timestamps strictly increase along the records. */
  predicate Chronological(cs: seq<Record>) {
    forall j, k :: 0 <= j < k < |cs| ==> cs[j].timestamp < cs[k].timestamp
  }

  /** Session ids listed by strictly decreasing last activity. */
  ghost predicate ByRecency(ids: seq<string>, sessions: map<string, SessionRecord>) {
    && (forall k :: 0 <= k < |ids| ==> ids[k] in sessions)
    && (forall j, k :: 0 <= j < k < |ids| ==> sessions[ids[j]].lastActivity > sessions[ids[k]].lastActivity)
  }

  /** `ids` with every occurrence of `x` removed. */
  function Without(ids: seq<string>, x: string): (r: seq<string>)
    ensures |r| <= |ids|
    ensures forall y :: y in r <==> y in ids && y != x
  {
    if ids == [] then []
    else if ids[0] == x then Without(ids[1..], x)
    else [ids[0]] + Without(ids[1..], x)
  }

  lemma {:induction false} WithoutByRecency(ids: seq<string>, x: string, sessions: map<string, SessionRecord>)
    requires ByRecency(ids, sessions)
    ensures ByRecency(Without(ids, x), sessions)
  {
    if ids != [] {
      WithoutByRecency(ids[1..], x, sessions);
      var rest := Without(ids[1..], x);
      if ids[0] != x {
        forall k | 0 <= k < |rest|
          ensures sessions[ids[0]].lastActivity > sessions[rest[k]].lastActivity
        {
          assert rest[k] in ids[1..];
          var j :| 0 <= j < |ids[1..]| && ids[1..][j] == rest[k];
          assert ids[j + 1] == rest[k];
        }
      }
    }
  }

  /** Selecting from a chronological sequence keeps it chronological: `order_by('timestamp')`
      returns the selected records in the order they were saved. */
  lemma {:induction false} MatchingChronological(cs: seq<Record>, sessionId: string, model: string)
    requires Chronological(cs)
    ensures Chronological(Matching(cs, sessionId, model))
  {
    if cs != [] {
      var init := cs[..|cs| - 1];
      MatchingChronological(init, sessionId, model);
      var m := Matching(init, sessionId, model);
      forall k | 0 <= k < |m| ensures m[k].timestamp < cs[|cs| - 1].timestamp {
        assert m[k] in init;
      }
    }
  }

  lemma {:induction false} OthersChronological(cs: seq<Record>, sessionId: string)
    requires Chronological(cs)
    ensures Chronological(Others(cs, sessionId))
  {
    if cs != [] {
      var init := cs[..|cs| - 1];
      OthersChronological(init, sessionId);
      var o := Others(init, sessionId);
      forall k | 0 <= k < |o| ensures o[k].timestamp < cs[|cs| - 1].timestamp {
        assert o[k] in init;
      }
    }
  }

  /** Selection distributes over appending records. */
  lemma {:induction false} MatchingConcat(a: seq<Record>, b: seq<Record>, sessionId: string, model: string)
    ensures Matching(a + b, sessionId, model) == Matching(a, sessionId, model) + Matching(b, sessionId, model)
  {
    if b != [] {
      var init, last := b[..|b| - 1], b[|b| - 1];
      var tail := if Selects(last, sessionId, model) then [last] else [];
      MatchingConcat(a, init, sessionId, model);
      assert (a + b)[..|a + b| - 1] == a + init && (a + b)[|a + b| - 1] == last;
      assert Matching(a + b, sessionId, model) == Matching(a + init, sessionId, model) + tail;
      assert Matching(b, sessionId, model) == Matching(init, sessionId, model) + tail;
    } else {
      assert a + b == a;
    }
  }

  lemma AsMessagesConcat(a: seq<Record>, b: seq<Record>)
    ensures AsMessages(a + b) == AsMessages(a) + AsMessages(b)
  {
  }

  lemma AsRowsConcat(a: seq<Record>, b: seq<Record>, model: string)
    ensures AsRows(a + b, model) == AsRows(a, model) + AsRows(b, model)
  {
  }

  /** One more record adds its row to a view exactly when the query selects it. */
  lemma ViewSnoc(cs: seq<Record>, r: Record, sessionId: string, model: string)
    ensures View(cs + [r], sessionId, model) ==
      View(cs, sessionId, model) + (if Selects(r, sessionId, model) then [RowOf(r, model)] else [])
  {
    assert (cs + [r])[..|cs|] == cs;
    AsRowsConcat(Matching(cs, sessionId, model), if Selects(r, sessionId, model) then [r] else [], model);
  }

  /** Round trip of `save_message` then `get_conversation` for that session and model: the
      saved (role, content) pair is appended, unchanged, after the earlier ones. */
  lemma SaveThenGet(cs: seq<Record>, r: Record)
    requires r.model != ""
    ensures View(cs + [r], r.sessionId, r.model) == View(cs, r.sessionId, r.model) + [Pair(r.role, r.content)]
    ensures History(cs + [r], r.sessionId, r.model) == History(cs, r.sessionId, r.model) + [Message(r.role, r.content)]
  {
    var m := Matching(cs, r.sessionId, r.model);
    assert (cs + [r])[..|cs + [r]| - 1] == cs;
    assert Matching(cs + [r], r.sessionId, r.model) == m + [r];
    AsRowsConcat(m, [r], r.model);
    AsMessagesConcat(m, [r]);
  }

  /** A saved record is invisible to every query that does not select it. */
  lemma SaveElsewhere(cs: seq<Record>, r: Record, sessionId: string, model: string)
    requires !Selects(r, sessionId, model)
    ensures View(cs + [r], sessionId, model) == View(cs, sessionId, model)
    ensures History(cs + [r], sessionId, model) == History(cs, sessionId, model)
  {
    MatchingConcat(cs, [r], sessionId, model);
    assert Matching([r], sessionId, model) == [];
    assert Matching(cs, sessionId, model) + [] == Matching(cs, sessionId, model);
  }

  /** With a model, every row is a (role, content) pair; without one, every row is a
      (model, role, content) triple. */
  lemma ViewShape(cs: seq<Record>, sessionId: string, model: string)
    ensures forall k :: 0 <= k < |View(cs, sessionId, model)| ==>
      (View(cs, sessionId, model)[k].Pair? <==> model != "")
  {
    var ms := Matching(cs, sessionId, model);
    var rows := View(cs, sessionId, model);
    forall k | 0 <= k < |rows| ensures rows[k].Pair? <==> model != "" {
      assert rows[k] == RowOf(ms[k], model);
    }
  }

  /** After clearing a session no query for it finds anything. */
  lemma {:induction false} ClearRemovesAll(cs: seq<Record>, sessionId: string, model: string)
    ensures Matching(Others(cs, sessionId), sessionId, model) == []
  {
    if cs != [] {
      var init := cs[..|cs| - 1];
      ClearRemovesAll(init, sessionId, model);
      var last := cs[|cs| - 1];
      MatchingConcat(Others(init, sessionId), if last.sessionId != sessionId then [last] else [], sessionId, model);
    }
  }

  /** Clearing one session leaves every query about another session as it was. */
  lemma {:induction false} ClearKeepsOthers(cs: seq<Record>, cleared: string, sessionId: string, model: string)
    requires sessionId != cleared
    ensures Matching(Others(cs, cleared), sessionId, model) == Matching(cs, sessionId, model)
  {
    if cs != [] {
      var init := cs[..|cs| - 1];
      ClearKeepsOthers(init, cleared, sessionId, model);
      var last := cs[|cs| - 1];
      MatchingConcat(Others(init, cleared), if last.sessionId != cleared then [last] else [], sessionId, model);
    }
  }

  /** Clearing a session twice leaves the same records as clearing it once. */
  lemma {:induction false} ClearIdempotent(cs: seq<Record>, sessionId: string)
    ensures Others(Others(cs, sessionId), sessionId) == Others(cs, sessionId)
  {
    if cs != [] {
      var init := cs[..|cs| - 1];
      ClearIdempotent(init, sessionId);
      var o := Others(init, sessionId);
      var last := cs[|cs| - 1];
      var tail := if last.sessionId != sessionId then [last] else [];
      OthersConcat(o, tail, sessionId);
      assert Others(tail, sessionId) == tail;
    }
  }

  lemma {:induction false} OthersConcat(a: seq<Record>, b: seq<Record>, sessionId: string)
    ensures Others(a + b, sessionId) == Others(a, sessionId) + Others(b, sessionId)
  {
    if b != [] {
      var init := b[..|b| - 1];
      OthersConcat(a, init, sessionId);
      assert (a + b)[..|a + b| - 1] == a + init;
    } else {
      assert a + b == a;
    }
  }

  /** The records are older than the clock, in timestamp order, and each belongs to a
      session whose record is present and was active no earlier than it. */
  ghost predicate RecordsOk(cs: seq<Record>, sessions: map<string, SessionRecord>, clock: nat) {
    && Chronological(cs)
    && (forall k :: 0 <= k < |cs| ==>
          && cs[k].timestamp < clock
          && cs[k].sessionId in sessions
          && cs[k].timestamp <= sessions[cs[k].sessionId].lastActivity)
  }

  /** Each session record is filed under its own id, was created no later than its last
      activity, and both lie before the clock. */
  ghost predicate SessionsOk(sessions: map<string, SessionRecord>, clock: nat) {
    forall id :: id in sessions ==>
      sessions[id].sessionId == id && sessions[id].createdAt <= sessions[id].lastActivity < clock
  }

  /** The recency index lists exactly the sessions, most recently active first. */
  ghost predicate IndexOk(ids: seq<string>, sessions: map<string, SessionRecord>) {
    && (forall id :: id in sessions <==> id in ids)
    && ByRecency(ids, sessions)
  }

  /** The session table after `save_message(sessionId, ...)` at time `now`. */
  function Touch(sessions: map<string, SessionRecord>, sessionId: string, now: nat): map<string, SessionRecord> {
    if sessionId in sessions then sessions[sessionId := sessions[sessionId].(lastActivity := now)]
    else sessions[sessionId := SessionRecord(sessionId, now, now)]
  }

  /** Saving a record at the current clock keeps the records consistent with the sessions. */
  lemma SaveKeepsRecords(cs: seq<Record>, sessions: map<string, SessionRecord>, clock: nat, r: Record)
    requires RecordsOk(cs, sessions, clock) && SessionsOk(sessions, clock)
    requires r.timestamp == clock
    ensures RecordsOk(cs + [r], Touch(sessions, r.sessionId, clock), clock + 1)
  {
    var ss := Touch(sessions, r.sessionId, clock);
    var cs' := cs + [r];
    forall k | 0 <= k < |cs'|
      ensures cs'[k].sessionId in ss && cs'[k].timestamp <= ss[cs'[k].sessionId].lastActivity
    {
      if k < |cs| {
        assert cs'[k] == cs[k];
      }
    }
  }

  /** What saving does to the session table: the session gains a record if it had none,
      created and last active now; an existing one keeps its creation time and becomes
      last active now; every other session is untouched. */
  lemma TouchEffect(sessions: map<string, SessionRecord>, sessionId: string, now: nat)
    ensures Touch(sessions, sessionId, now).Keys == sessions.Keys + {sessionId}
    ensures Touch(sessions, sessionId, now)[sessionId].lastActivity == now
    ensures sessionId !in sessions ==> Touch(sessions, sessionId, now)[sessionId] == SessionRecord(sessionId, now, now)
    ensures sessionId in sessions ==>
      Touch(sessions, sessionId, now)[sessionId] == sessions[sessionId].(lastActivity := now)
    ensures forall id :: id in sessions && id != sessionId ==> Touch(sessions, sessionId, now)[id] == sessions[id]
  {
  }

  /** Saving keeps every session record well formed and refreshes the touched one to `clock`. */
  lemma SaveKeepsSessions(sessions: map<string, SessionRecord>, clock: nat, sessionId: string)
    requires SessionsOk(sessions, clock)
    ensures SessionsOk(Touch(sessions, sessionId, clock), clock + 1)
    ensures Touch(sessions, sessionId, clock)[sessionId].lastActivity == clock
    ensures sessionId in sessions ==> Touch(sessions, sessionId, clock)[sessionId].createdAt == sessions[sessionId].createdAt
  {
  }

  /** Recency order depends only on the records of the listed sessions. */
  lemma ByRecencyTransfer(ids: seq<string>, s1: map<string, SessionRecord>, s2: map<string, SessionRecord>)
    requires ByRecency(ids, s1)
    requires forall k :: 0 <= k < |ids| ==> ids[k] in s2 && s2[ids[k]] == s1[ids[k]]
    ensures ByRecency(ids, s2)
  {
  }

  /** A session more recent than all listed ones can go in front. */
  lemma ByRecencyFront(id: string, ids: seq<string>, sessions: map<string, SessionRecord>)
    requires ByRecency(ids, sessions) && id in sessions
    requires forall k :: 0 <= k < |ids| ==> sessions[ids[k]].lastActivity < sessions[id].lastActivity
    ensures ByRecency([id] + ids, sessions)
  {
    var ids' := [id] + ids;
    forall j, k | 0 <= j < k < |ids'| ensures sessions[ids'[j]].lastActivity > sessions[ids'[k]].lastActivity {
      assert ids'[k] == ids[k - 1];
      if j > 0 {
        assert ids'[j] == ids[j - 1];
      }
    }
  }

  /** Moving the touched session to the front keeps the recency index exact and ordered. */
  lemma SaveKeepsIndex(ids: seq<string>, sessions: map<string, SessionRecord>, clock: nat, sessionId: string)
    requires IndexOk(ids, sessions) && SessionsOk(sessions, clock)
    ensures IndexOk([sessionId] + Without(ids, sessionId), Touch(sessions, sessionId, clock))
  {
    var ss := Touch(sessions, sessionId, clock);
    var rest := Without(ids, sessionId);
    WithoutByRecency(ids, sessionId, sessions);
    forall k | 0 <= k < |rest| ensures rest[k] in ss && ss[rest[k]] == sessions[rest[k]] {
      assert rest[k] in rest;
    }
    ByRecencyTransfer(rest, sessions, ss);
    ByRecencyFront(sessionId, rest, ss);
  }

  /** Clearing a session keeps the remaining records consistent with the remaining sessions. */
  lemma ClearKeepsRecords(cs: seq<Record>, sessions: map<string, SessionRecord>, clock: nat, sessionId: string)
    requires RecordsOk(cs, sessions, clock)
    ensures RecordsOk(Others(cs, sessionId), sessions - {sessionId}, clock)
  {
    OthersChronological(cs, sessionId);
    var o := Others(cs, sessionId);
    forall k | 0 <= k < |o|
      ensures o[k].timestamp < clock && o[k].sessionId in sessions - {sessionId}
      ensures o[k].timestamp <= (sessions - {sessionId})[o[k].sessionId].lastActivity
    {
      assert o[k] in cs;
    }
  }

  /** Clearing a session keeps the other session records well formed. */
  lemma ClearKeepsSessions(sessions: map<string, SessionRecord>, clock: nat, sessionId: string)
    requires SessionsOk(sessions, clock)
    ensures SessionsOk(sessions - {sessionId}, clock)
  {
  }

  /** Clearing a session drops it from the recency index and keeps the order of the rest. */
  lemma ClearKeepsIndex(ids: seq<string>, sessions: map<string, SessionRecord>, sessionId: string)
    requires IndexOk(ids, sessions)
    ensures IndexOk(Without(ids, sessionId), sessions - {sessionId})
  {
    var rest := Without(ids, sessionId);
    WithoutByRecency(ids, sessionId, sessions);
    forall k | 0 <= k < |rest| ensures rest[k] in sessions - {sessionId} {
      assert rest[k] in rest;
    }
  }

  class Database {
    var conversations: seq<Record>
    var sessions: map<string, SessionRecord>
    var recency: seq<string>
    var clock: nat

    /** Every record is older than the clock, saved in timestamp order, and belongs to a
        session whose record is present and was active no earlier than it; the recency
        index lists exactly the sessions, most recently active first. */
    ghost predicate Valid()
      reads this
    {
      RecordsOk(conversations, sessions, clock) && SessionsOk(sessions, clock) && IndexOk(recency, sessions)
    }

    /** An empty store. */
    constructor ()
      ensures Valid()
      ensures conversations == [] && sessions == map[] && clock == 0
    {
      conversations := [];
      sessions := map[];
      recency := [];
      clock := 0;
    }

    /** `save_message`: creates the session record on first use (setting `created_at`),
        otherwise refreshes only its `last_activity`; then appends exactly one record. */
    method SaveMessage(sessionId: string, model: string, role: Role, content: string)
      requires Valid()
      modifies this
      ensures Valid()
      ensures clock == old(clock) + 1
      ensures conversations == old(conversations) + [Record(sessionId, model, role, content, old(clock))]
      ensures sessions == Touch(old(sessions), sessionId, old(clock))
    {
      var now := clock;
      var r := Record(sessionId, model, role, content, now);
      SaveKeepsRecords(conversations, sessions, now, r);
      SaveKeepsSessions(sessions, now, sessionId);
      SaveKeepsIndex(recency, sessions, now, sessionId);
      if sessionId in sessions {
        sessions := sessions[sessionId := sessions[sessionId].(lastActivity := now)];
      } else {
        sessions := sessions[sessionId := SessionRecord(sessionId, now, now)];
      }
      recency := [sessionId] + Without(recency, sessionId);
      conversations := conversations + [r];
      clock := clock + 1;
    }

    /** `get_conversation`: streams the records and keeps those the query selects. */
    method GetConversation(sessionId: string, model: string) returns (rows: seq<Row>)
      ensures rows == View(conversations, sessionId, model)
    {
      rows := [];
      var k := 0;
      while k < |conversations|
        invariant 0 <= k <= |conversations|
        invariant rows == View(conversations[..k], sessionId, model)
      {
        var r := conversations[k];
        assert conversations[..k + 1] == conversations[..k] + [r];
        ViewSnoc(conversations[..k], r, sessionId, model);
        if Selects(r, sessionId, model) {
          rows := rows + [RowOf(r, model)];
        }
        k := k + 1;
      }
      assert conversations[..k] == conversations;
    }

    /** `clear_session`: deletes every record of the session, then the session record. */
    method ClearSession(sessionId: string)
      requires Valid()
      modifies this
      ensures Valid()
      ensures conversations == Others(old(conversations), sessionId)
      ensures sessions == old(sessions) - {sessionId}
      ensures clock == old(clock)
    {
      var kept := Filter(conversations, sessionId);
      ClearKeepsRecords(conversations, sessions, clock, sessionId);
      ClearKeepsIndex(recency, sessions, sessionId);
      ClearKeepsSessions(sessions, clock, sessionId);
      conversations := kept;
      sessions := sessions - {sessionId};
      recency := Without(recency, sessionId);
    }

    /** `get_all_sessions`: one entry per session record, most recently active first. */
    method GetAllSessions() returns (rows: seq<SessionRecord>)
      requires Valid()
      ensures forall k :: 0 <= k < |rows| ==> rows[k].sessionId in sessions && rows[k] == sessions[rows[k].sessionId]
      ensures forall id :: id in sessions <==> exists k :: 0 <= k < |rows| && rows[k].sessionId == id
      ensures forall j, k :: 0 <= j < k < |rows| ==> rows[j].lastActivity > rows[k].lastActivity
    {
      rows := [];
      var k := 0;
      while k < |recency|
        invariant 0 <= k <= |recency|
        invariant |rows| == k
        invariant forall j :: 0 <= j < k ==> rows[j] == sessions[recency[j]]
      {
        rows := rows + [sessions[recency[k]]];
        k := k + 1;
      }
      forall id | id in sessions ensures exists j :: 0 <= j < |rows| && rows[j].sessionId == id {
        var j :| 0 <= j < |recency| && recency[j] == id;
        assert rows[j].sessionId == id;
      }
    }
  }
}
