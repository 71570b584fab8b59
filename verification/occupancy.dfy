/**
 * The occupancy service of app/main.py as a state machine over an abstract
 * store: a token registry, an append-only log of sensor events and a
 * per-room projection of the latest state. Ingest is one transition with a
 * tagged result; the room listing is a pure function of the store and the
 * clock. Time is a count of seconds supplied by the caller, and a failure
 * of the database is a `Fault` argument naming the step that fails.
 */
module Occupancy {

  import opened Options
  import Lex

  /** Longest sensor id and room name a payload may carry. */
  const MaxNameLength := 128

  /** The request body a sensor posts. */
  datatype Payload = Payload(sensorId: string, token: string, roomName: string, state: int)

  /** One row of the append-only event log. */
  datatype Event = Event(sensorId: string, roomName: string, state: int)

  /** One row of the projection, keyed by room name. */
  datatype RoomStatus = RoomStatus(state: int, updatedAt: nat)

  datatype Store = Store(tokens: set<string>, events: seq<Event>, rooms: map<string, RoomStatus>)

  /** The step at which the database fails during an ingest, if any. */
  datatype Fault = NoFault | ConnectFails | TokenLookupFails | InsertFails | UpsertFails | CommitFails
  {
    /** Faults that strike before the token has been looked up. */
    predicate BeforeTokenCheck() {
      ConnectFails? || TokenLookupFails?
    }
  }

  datatype ApiError = Validation | Unauthorized | StoreError

  datatype Reply<T> = Ok(value: T) | Err(error: ApiError)

  /** The body `{status: "ok"}` of a successful ingest. */
  datatype Ack = StatusOk

  /** The reply of an ingest together with the store it leaves behind. */
  datatype Step = Step(reply: Reply<Ack>, store: Store)

  /** One row of the room listing. */
  datatype RoomView = RoomView(roomName: string, state: int, updatedAt: nat, occupiedSeconds: Option<int>)

  /** The field constraints of the request model, checked before the handler runs. */
  predicate WellFormed(p: Payload) {
    && 1 <= |p.sensorId| <= MaxNameLength
    && 1 <= |p.token|
    && 1 <= |p.roomName| <= MaxNameLength
    && 0 <= p.state <= 1
  }

  /** `after` is `before` with `e` appended and nothing else changed. */
  predicate Appended(before: seq<Event>, after: seq<Event>, e: Event) {
    && |after| == |before| + 1
    && (forall i :: 0 <= i < |before| ==> after[i] == before[i])
    && after[|before|] == e
  }

  /** `after` maps `room` to `s` and agrees with `before` on every other room. */
  predicate Upserted(before: map<string, RoomStatus>, after: map<string, RoomStatus>, room: string, s: RoomStatus) {
    && after.Keys == before.Keys + {room}
    && after[room] == s
    && forall k :: k in before && k != room ==> after[k] == before[k]
  }

  /** The HTTP status code an error is reported with. */
  function StatusCode(e: ApiError): (code: nat)
    ensures 400 <= code < 600
    ensures code < 500 <==> e != StoreError
    ensures code == 422 <==> e == Validation
    ensures code == 401 <==> e == Unauthorized
    ensures code == 500 <==> e == StoreError
  {
    match e
    case Validation => 422
    case Unauthorized => 401
    case StoreError => 500
  }

  /** The `detail` message an error is reported with; the framework writes its own for validation errors. */
  function Detail(e: ApiError): (d: Option<string>)
    ensures d == Some("Invalid token") <==> e == Unauthorized
    ensures d == Some("Database error") <==> e == StoreError
  {
    match e
    case Validation => None
    case Unauthorized => Some("Invalid token")
    case StoreError => Some("Database error")
  }

  /**
   * POST /sensor/update at time `now`, with the database failing as `fault` says.
   * The event insert and the upsert run in one transaction that is committed only
   * when every step succeeds; otherwise the connection is closed uncommitted.
   */
  function Ingest(st: Store, p: Payload, now: nat, fault: Fault): (r: Step)
    ensures r.reply.Err? ==> r.store == st
    ensures r.reply == Err(Validation) <==> !WellFormed(p)
    ensures r.reply == Err(Unauthorized) <==> WellFormed(p) && !fault.BeforeTokenCheck() && p.token !in st.tokens
    ensures r.reply == Err(StoreError) <==>
              WellFormed(p) && fault != NoFault && (fault.BeforeTokenCheck() || p.token in st.tokens)
    ensures r.reply.Ok? <==> WellFormed(p) && p.token in st.tokens && fault == NoFault
    ensures r.reply.Ok? ==>
              && r.store.tokens == st.tokens
              && Appended(st.events, r.store.events, Event(p.sensorId, p.roomName, p.state))
              && Upserted(st.rooms, r.store.rooms, p.roomName, RoomStatus(p.state, now))
  {
    if !WellFormed(p) then Step(Err(Validation), st)
    else if fault.BeforeTokenCheck() then Step(Err(StoreError), st)
    else if p.token !in st.tokens then Step(Err(Unauthorized), st)
    else if fault != NoFault then Step(Err(StoreError), st)
    else
      var logged := st.events + [Event(p.sensorId, p.roomName, p.state)];
      var projected := st.rooms[p.roomName := RoomStatus(p.state, now)];
      Step(Ok(StatusOk), Store(st.tokens, logged, projected))
  }

  /** The derived occupancy duration of a projection row read at `now`. */
  function OccupiedSeconds(s: RoomStatus, now: nat): Option<int> {
    if s.state == 1 then Some(now - s.updatedAt) else None
  }

  /** `v` is the listing row for a room whose projection row is `s`, read at `now`. */
  predicate Describes(v: RoomView, s: RoomStatus, now: nat) {
    && v.state == s.state
    && v.updatedAt == s.updatedAt
    && (v.occupiedSeconds.Some? <==> s.state == 1)
    && (v.occupiedSeconds.Some? ==> v.occupiedSeconds.value + s.updatedAt == now)
  }

  /** Every row of `rows` names a room strictly before every later row. */
  predicate AscendingByName(rows: seq<RoomView>) {
    forall i, j :: 0 <= i < j < |rows| ==> Lex.Lt(rows[i].roomName, rows[j].roomName)
  }

  /** The listing row of each room in `names`, in that order. */
  function RowsFor(names: seq<string>, rooms: map<string, RoomStatus>, now: nat): (rows: seq<RoomView>)
    requires forall i :: 0 <= i < |names| ==> names[i] in rooms
    ensures |rows| == |names|
    ensures forall i :: 0 <= i < |rows| ==> rows[i].roomName == names[i] && Describes(rows[i], rooms[names[i]], now)
  {
    seq(|names|, i requires 0 <= i < |names| =>
      RoomView(names[i], rooms[names[i]].state, rooms[names[i]].updatedAt, OccupiedSeconds(rooms[names[i]], now)))
  }

  /** The projection read at `now`: one row per room, ascending by room name. */
  function Listing(rooms: map<string, RoomStatus>, now: nat): (rows: seq<RoomView>)
    ensures |rows| == |rooms|
    ensures AscendingByName(rows)
    ensures forall i :: 0 <= i < |rows| ==> rows[i].roomName in rooms && Describes(rows[i], rooms[rows[i].roomName], now)
  {
    var names := Lex.Ascending(rooms.Keys);
    assert forall i :: 0 <= i < |names| ==> names[i] in rooms by {
      forall i | 0 <= i < |names|
        ensures names[i] in rooms
      {
        assert names[i] in names;
      }
    }
    RowsFor(names, rooms, now)
  }

  /** Every room of the projection is listed. */
  lemma ListingCoversRooms(rooms: map<string, RoomStatus>, now: nat, room: string)
    requires room in rooms
    ensures exists i :: 0 <= i < |Listing(rooms, now)| && Listing(rooms, now)[i].roomName == room
  {
    var names := Lex.Ascending(rooms.Keys);
    assert forall i :: 0 <= i < |names| ==> names[i] in rooms by {
      forall i | 0 <= i < |names|
        ensures names[i] in rooms
      {
        assert names[i] in names;
      }
    }
    assert Listing(rooms, now) == RowsFor(names, rooms, now);
    assert room in names;
    var i :| 0 <= i < |names| && names[i] == room;
    assert Listing(rooms, now)[i].roomName == room;
  }

  /** GET /rooms at time `now`: the listing of the projection, or a store error and no rows. */
  function ListRooms(st: Store, now: nat, storeFails: bool): (r: Reply<seq<RoomView>>)
    ensures r.Err? <==> storeFails
    ensures r.Err? ==> r.error == StoreError
    ensures r.Ok? ==> r.value == Listing(st.rooms, now)
  {
    if storeFails then Err(StoreError) else Ok(Listing(st.rooms, now))
  }
}
