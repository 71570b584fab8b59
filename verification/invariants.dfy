/**
 * What the ingest transition keeps true of the store: the projection is the
 * tail of the event log, every projection row is backed by a logged event,
 * states stay binary and timestamps never lie in the future; and what a run
 * of many requests does to the log.
 */
module Invariants {

  import opened Options
  import opened Occupancy

  /** The state of the last logged event for `room`, or None when no event names it. */
  function LastState(events: seq<Event>, room: string): Option<int>
    decreases |events|
  {
    if |events| == 0 then None
    else if events[|events| - 1].roomName == room then Some(events[|events| - 1].state)
    else LastState(events[..|events| - 1], room)
  }

  /** The projection holds exactly the rooms the log names, each with its last logged state. */
  ghost predicate ProjectionIsTail(st: Store) {
    forall room :: LastState(st.events, room) == (if room in st.rooms then Some(st.rooms[room].state) else None)
  }

  /** Every projection row is caused by some logged event for that room with that state. */
  ghost predicate ProjectionBacked(st: Store) {
    forall room :: room in st.rooms ==>
      exists i :: 0 <= i < |st.events| && st.events[i].roomName == room && st.events[i].state == st.rooms[room].state
  }

  /** Every logged and projected state is 0 or 1. */
  ghost predicate StatesBinary(st: Store) {
    && (forall i :: 0 <= i < |st.events| ==> 0 <= st.events[i].state <= 1)
    && (forall room :: room in st.rooms ==> 0 <= st.rooms[room].state <= 1)
  }

  /** No projection row was updated later than `now`. */
  ghost predicate StampsNotAfter(st: Store, now: nat) {
    forall room :: room in st.rooms ==> st.rooms[room].updatedAt <= now
  }

  /** An empty log with an empty projection, whatever the token registry holds. */
  function Fresh(tokens: set<string>): (st: Store)
    ensures ProjectionIsTail(st) && ProjectionBacked(st) && StatesBinary(st)
    ensures forall now: nat :: StampsNotAfter(st, now)
  {
    Store(tokens, [], map[])
  }

  /** A room with a last logged state has an event in the log carrying it. */
  lemma {:induction false} LastStateWitness(events: seq<Event>, room: string)
    requires LastState(events, room).Some?
    ensures exists i :: 0 <= i < |events| && events[i].roomName == room && events[i].state == LastState(events, room).value
    decreases |events|
  {
    var n := |events| - 1;
    if events[n].roomName != room {
      LastStateWitness(events[..n], room);
      var i :| 0 <= i < n && events[..n][i].roomName == room && events[..n][i].state == LastState(events[..n], room).value;
      assert events[i] == events[..n][i];
    }
  }

  /** The tail invariant is the stronger one: it gives every projection row a backing event. */
  lemma TailImpliesBacked(st: Store)
    requires ProjectionIsTail(st)
    ensures ProjectionBacked(st)
  {
    forall room | room in st.rooms
      ensures exists i :: 0 <= i < |st.events| && st.events[i].roomName == room && st.events[i].state == st.rooms[room].state
    {
      assert LastState(st.events, room) == Some(st.rooms[room].state);
      LastStateWitness(st.events, room);
    }
  }

  /** Ingest keeps the projection equal to the tail of the log. */
  lemma IngestKeepsTail(st: Store, p: Payload, now: nat, fault: Fault)
    requires ProjectionIsTail(st)
    ensures ProjectionIsTail(Ingest(st, p, now, fault).store)
  {
  }

  /** Ingest keeps every projection row backed by a logged event with its room and state. */
  lemma IngestKeepsBacked(st: Store, p: Payload, now: nat, fault: Fault)
    requires ProjectionBacked(st)
    ensures ProjectionBacked(Ingest(st, p, now, fault).store)
  {
  }

  /** Ingest only ever logs and projects the states 0 and 1. */
  lemma IngestKeepsStatesBinary(st: Store, p: Payload, now: nat, fault: Fault)
    requires StatesBinary(st)
    ensures StatesBinary(Ingest(st, p, now, fault).store)
  {
  }

  /** An ingest at `now` stamps no row later than `now`. */
  lemma IngestKeepsStamps(st: Store, p: Payload, now: nat, fault: Fault)
    requires StampsNotAfter(st, now)
    ensures StampsNotAfter(Ingest(st, p, now, fault).store, now)
  {
  }

  /** A row is listed with a non-negative duration when its stamp is not in the future. */
  lemma OccupiedNonNegative(st: Store, now: nat)
    requires StampsNotAfter(st, now)
    ensures ListRooms(st, now, false).Ok?
    ensures forall v :: v in ListRooms(st, now, false).value && v.occupiedSeconds.Some? ==> v.occupiedSeconds.value >= 0
  {
  }

  /** A request as the service receives it: the payload, the clock at arrival and how the store behaves. */
  datatype Request = Request(payload: Payload, at: nat, fault: Fault)

  /** Whether a request is accepted, which depends on the token registry only. */
  predicate Accepted(tokens: set<string>, q: Request) {
    WellFormed(q.payload) && q.payload.token in tokens && q.fault == NoFault
  }

  function CountAccepted(tokens: set<string>, reqs: seq<Request>): nat
    decreases |reqs|
  {
    if |reqs| == 0 then 0
    else (if Accepted(tokens, reqs[0]) then 1 else 0) + CountAccepted(tokens, reqs[1..])
  }

  /** The store after serving `reqs` one after another. */
  function Replay(st: Store, reqs: seq<Request>): Store
    decreases |reqs|
  {
    if |reqs| == 0 then st
    else Replay(Ingest(st, reqs[0].payload, reqs[0].at, reqs[0].fault).store, reqs[1..])
  }

  /** The log only grows: earlier events stay in place, one event is added per accepted request, tokens never change. */
  lemma {:induction false} ReplayAppendOnly(st: Store, reqs: seq<Request>)
    ensures Replay(st, reqs).tokens == st.tokens
    ensures |Replay(st, reqs).events| == |st.events| + CountAccepted(st.tokens, reqs)
    ensures Replay(st, reqs).events[..|st.events|] == st.events
    decreases |reqs|
  {
    if |reqs| > 0 {
      var next := Ingest(st, reqs[0].payload, reqs[0].at, reqs[0].fault).store;
      ReplayAppendOnly(next, reqs[1..]);
      var last := Replay(st, reqs);
      assert last == Replay(next, reqs[1..]);
      assert next.events[..|st.events|] == st.events;
      assert last.events[..|st.events|] == last.events[..|next.events|][..|st.events|];
    }
  }

  /** The invariants hold after any run that starts from a store satisfying them, with no request stamped after `now`. */
  lemma {:induction false} ReplayKeepsInvariants(st: Store, reqs: seq<Request>, now: nat)
    requires ProjectionIsTail(st) && StatesBinary(st) && StampsNotAfter(st, now)
    requires forall i :: 0 <= i < |reqs| ==> reqs[i].at <= now
    ensures ProjectionIsTail(Replay(st, reqs))
    ensures ProjectionBacked(Replay(st, reqs))
    ensures StatesBinary(Replay(st, reqs))
    ensures StampsNotAfter(Replay(st, reqs), now)
    decreases |reqs|
  {
    if |reqs| == 0 {
      TailImpliesBacked(st);
    } else {
      var q := reqs[0];
      var next := Ingest(st, q.payload, q.at, q.fault).store;
      IngestKeepsTail(st, q.payload, q.at, q.fault);
      IngestKeepsStatesBinary(st, q.payload, q.at, q.fault);
      assert StampsNotAfter(next, now);
      ReplayKeepsInvariants(next, reqs[1..], now);
    }
  }
}
