/**
 * Properties that span several calls: repeated pings, the scenarios of an
 * ingest followed by a listing, and what the dashboard shows for a listing.
 */
module EndToEnd {

  import opened Options
  import opened Occupancy
  import opened Invariants
  import Dashboard

  /** Repeating an identical ping logs it twice and moves the stamp to the second ping, though the state did not change. */
  lemma RepeatedPingRefreshes(st: Store, p: Payload, t1: nat, t2: nat)
    requires WellFormed(p) && p.token in st.tokens
    ensures var s1 := Ingest(st, p, t1, NoFault).store;
            var s2 := Ingest(s1, p, t2, NoFault).store;
            && s1.rooms[p.roomName] == RoomStatus(p.state, t1)
            && s2.rooms[p.roomName] == RoomStatus(p.state, t2)
            && |s2.events| == |st.events| + 2
  {
  }

  /** A valid ping for a new room, then a listing: the room is listed occupied since the ping. */
  lemma LobbyScenario(t: nat, now: nat)
    requires t <= now
    ensures var step := Ingest(Fresh({"T"}), Payload("s1", "T", "lobby", 1), t, NoFault);
            && step.reply == Ok(StatusOk)
            && ListRooms(step.store, now, false) == Ok([RoomView("lobby", 1, t, Some(now - t))])
  {
    var step := Ingest(Fresh({"T"}), Payload("s1", "T", "lobby", 1), t, NoFault);
    assert step.store.rooms == map["lobby" := RoomStatus(1, t)];
    var r := ListRooms(step.store, now, false);
    assert |r.value| == 1;
    var v := r.value[0];
    assert v.roomName in step.store.rooms;
    assert v.roomName == "lobby";
    assert Describes(v, RoomStatus(1, t), now);
    assert v == RoomView("lobby", 1, t, Some(now - t));
    assert r.value == [v];
  }

  /** A ping with an unknown token is refused with 401 and leaves no room to list. */
  lemma BadTokenScenario(t: nat, now: nat)
    ensures var step := Ingest(Fresh({"T"}), Payload("s1", "bad", "lobby", 1), t, NoFault);
            && step.reply == Err(Unauthorized)
            && StatusCode(step.reply.error) == 401
            && Detail(step.reply.error) == Some("Invalid token")
            && ListRooms(step.store, now, false) == Ok([])
  {
  }

  /** A listing that cannot reach the store is a 500 with no rows. */
  lemma OutageScenario(st: Store, now: nat)
    ensures ListRooms(st, now, true) == Err(StoreError)
    ensures StatusCode(StoreError) == 500 && Detail(StoreError) == Some("Database error")
  {
  }

  /** Between writes, each listed room keeps its place and an occupied room's duration grows with the clock. */
  lemma OccupiedGrowsWithTime(rooms: map<string, RoomStatus>, now1: nat, now2: nat)
    requires now1 <= now2
    ensures var r1, r2 := Listing(rooms, now1), Listing(rooms, now2);
            && |r1| == |r2|
            && forall i :: 0 <= i < |r1| ==>
                 && r1[i].roomName == r2[i].roomName
                 && (r1[i].occupiedSeconds.Some? ==> r2[i].occupiedSeconds == Some(r1[i].occupiedSeconds.value + (now2 - now1)))
  {
  }

  /**
   * What the dashboard shows for a listing: when no stamp is in the future, the label
   * of the occupied room at any position reads back as the time since its last update.
   */
  lemma DashboardShowsElapsed(st: Store, now: nat, i: nat)
    requires StampsNotAfter(st, now)
    requires i < |Listing(st.rooms, now)| && Listing(st.rooms, now)[i].state == 1
    ensures var v := Listing(st.rooms, now)[i];
            Dashboard.ParseDuration(Dashboard.RoomLabel(v)[|Dashboard.OccupiedPrefix|..])
            == Some(Dashboard.SplitSeconds(now - v.updatedAt))
  {
    var v := Listing(st.rooms, now)[i];
    var s := st.rooms[v.roomName];
    assert Describes(v, s, now) && s.updatedAt <= now;
    RowLabelShowsElapsed(v, s, now);
  }

  /** The label of one occupied listing row whose stamp is not in the future. */
  lemma RowLabelShowsElapsed(v: RoomView, s: RoomStatus, now: nat)
    requires Describes(v, s, now) && s.updatedAt <= now && v.state == 1
    ensures Dashboard.ParseDuration(Dashboard.RoomLabel(v)[|Dashboard.OccupiedPrefix|..])
            == Some(Dashboard.SplitSeconds(now - v.updatedAt))
  {
    assert v.occupiedSeconds == Some(now - v.updatedAt);
    Dashboard.LabelShowsDuration(v);
  }

  /** A store with no room yet is shown as the empty-list notice. */
  lemma FreshStoreShowsNotice(tokens: set<string>, now: nat)
    ensures ListRooms(Fresh(tokens), now, false).Ok?
    ensures Dashboard.RenderRooms(ListRooms(Fresh(tokens), now, false).value) == Dashboard.Notice(Dashboard.EmptyNotice)
  {
  }
}
