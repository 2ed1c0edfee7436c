/**
  The client's room sagas as one event-step function. Events are handled one
  at a time. Every saga is registered with take-latest semantics, so a new
  search cancels the waiter of the previous one: the state keeps at most one
  pending search token, and a search-finish event commits its rooms only
  when its token is that pending one.
 */
module RoomsSagas {
  import opened Wrappers
  import opened RoomFilter

  /** A plain action payload, field name to value, forwarded as is. */
  type Payload = map<string, string>

  /** Where the client is sent; the router itself is not modelled. */
  datatype Route = RoomsPage | GamePage(roomUuid: string)

  /** Actions that reach the sagas: user intents and server pushes. */
  datatype Event =
    | SearchRooms(criteria: string)
    | SearchRoomsFinish(search: string, rooms: seq<Room>)
    | CreateRoom(payload: Payload)
    | ConnectToRoom(payload: Payload)
    | RoomsFromServer(rooms: seq<Room>)
    | ConnectToRoomError
    | CreateRoomSuccess(gameId: string)

  /** Actions the sagas put: requests to the server, store updates, navigation. */
  datatype Output =
    | SearchRoomsEmit(search: string)
    | SetRooms(search: string, rooms: seq<Room>)
    | CreateRoomEmit(payload: Payload)
    | ConnectToRoomEmit(payload: Payload)
    | UpdateRooms(rooms: seq<Room>)
    | Replace(route: Route)
    | Push(route: Route)

  /**
    Per-client state: the token of the search still waiting for its result,
    the room list the client shows, and the current search text.
   */
  datatype State = State(pending: Option<string>, rooms: seq<Room>, search: string)

  datatype StepResult = StepResult(state: State, outputs: seq<Output>)

  /** A client that has not searched yet. */
  const Initial: State := State(None, [], "")

  /** The result of feeding one event to the sagas. */
  function Step(s: State, e: Event): (r: StepResult)
    // A search sends its criteria to the server and replaces any earlier waiter.
    ensures e.SearchRooms? ==>
              && r.outputs == [SearchRoomsEmit(e.criteria)]
              && r.state.pending == Some(e.criteria)
              && r.state.search == e.criteria
              && r.state.rooms == s.rooms
    // A result for the pending token is committed once and ends the wait.
    ensures e.SearchRoomsFinish? && s.pending == Some(e.search) ==>
              && r.outputs == [SetRooms(e.search, e.rooms)]
              && r.state == s.(pending := None, rooms := e.rooms)
    // Any other result is ignored and the waiter keeps waiting.
    ensures e.SearchRoomsFinish? && s.pending != Some(e.search) ==>
              r.state == s && r.outputs == []
    // Create and connect intents forward their payload and leave the state alone.
    ensures e.CreateRoom? ==> r.state == s && r.outputs == [CreateRoomEmit(e.payload)]
    ensures e.ConnectToRoom? ==> r.state == s && r.outputs == [ConnectToRoomEmit(e.payload)]
    // A broadcast shows exactly the rooms matching the current search text.
    ensures e.RoomsFromServer? ==>
              && r.state.pending == s.pending
              && r.state.search == s.search
              && r.outputs == [UpdateRooms(r.state.rooms)]
              && IsSubsequence(r.state.rooms, e.rooms)
              && (forall room :: room in r.state.rooms ==> Matches(room, s.search))
              && (forall i :: 0 <= i < |e.rooms| && Matches(e.rooms[i], s.search) ==>
                    e.rooms[i] in r.state.rooms)
              && (forall room :: multiset(r.state.rooms)[room] ==
                    if Matches(room, s.search) then multiset(e.rooms)[room] else 0)
    // Connection failures and created games only navigate.
    ensures e.ConnectToRoomError? ==> r.state == s && r.outputs == [Replace(RoomsPage)]
    ensures e.CreateRoomSuccess? ==> r.state == s && r.outputs == [Push(GamePage(e.gameId))]
  {
    match e
    case SearchRooms(criteria) =>
      StepResult(s.(pending := Some(criteria), search := criteria), [SearchRoomsEmit(criteria)])
    case SearchRoomsFinish(search, rooms) =>
      if s.pending == Some(search) then
        StepResult(s.(pending := None, rooms := rooms), [SetRooms(search, rooms)])
      else
        StepResult(s, [])
    case CreateRoom(payload) =>
      StepResult(s, [CreateRoomEmit(payload)])
    case ConnectToRoom(payload) =>
      StepResult(s, [ConnectToRoomEmit(payload)])
    case RoomsFromServer(rooms) =>
      var shown := FilterRooms(rooms, s.search);
      FilterIsSubsequence(rooms, s.search);
      assert forall room :: multiset(shown)[room] ==
               if Matches(room, s.search) then multiset(rooms)[room] else 0 by {
        forall room
          ensures multiset(shown)[room] ==
                  if Matches(room, s.search) then multiset(rooms)[room] else 0
        {
          FilterCount(rooms, s.search, room);
        }
      }
      StepResult(s.(rooms := shown), [UpdateRooms(shown)])
    case ConnectToRoomError =>
      StepResult(s, [Replace(RoomsPage)])
    case CreateRoomSuccess(gameId) =>
      StepResult(s, [Push(GamePage(gameId))])
  }

  /** Feeds `events` to the sagas in order, collecting everything they put. */
  function Run(s: State, events: seq<Event>): (r: StepResult)
    decreases |events|
  {
    if events == [] then StepResult(s, [])
    else
      var first := Step(s, events[0]);
      var rest := Run(first.state, events[1..]);
      StepResult(rest.state, first.outputs + rest.outputs)
  }

  /** No event of `events` starts a new search. */
  predicate NoSearch(events: seq<Event>)
  {
    forall i :: 0 <= i < |events| ==> !events[i].SearchRooms?
  }

  /** The number of search results committed among `outputs`. */
  function Commits(outputs: seq<Output>): nat
  {
    if outputs == [] then 0
    else (if outputs[0].SetRooms? then 1 else 0) + Commits(outputs[1..])
  }

  lemma {:induction false} CommitsAppend(a: seq<Output>, b: seq<Output>)
    ensures Commits(a + b) == Commits(a) + Commits(b)
  {
    if a != [] {
      assert (a + b)[0] == a[0];
      assert (a + b)[1..] == a[1..] + b;
      CommitsAppend(a[1..], b);
    } else {
      assert a + b == b;
    }
  }

  /**
    Without a new search, every committed result carries the token that was
    pending at the start, and at most one result is committed; with no
    pending token nothing is committed at all.
   */
  lemma {:induction false} CommitsOnlyPendingToken(s: State, events: seq<Event>)
    requires NoSearch(events)
    ensures var outs := Run(s, events).outputs;
            forall i :: 0 <= i < |outs| && outs[i].SetRooms? ==> s.pending == Some(outs[i].search)
    ensures Commits(Run(s, events).outputs) <= (if s.pending.Some? then 1 else 0)
    decreases |events|
  {
    if events != [] {
      var first := Step(s, events[0]);
      assert NoSearch(events[1..]) by {
        forall i | 0 <= i < |events[1..]|
          ensures !events[1..][i].SearchRooms?
        {
          assert events[1..][i] == events[i + 1];
        }
      }
      CommitsOnlyPendingToken(first.state, events[1..]);
      var rest := Run(first.state, events[1..]);
      CommitsAppend(first.outputs, rest.outputs);
      assert first.state.pending == s.pending || first.state.pending == None;
    }
  }

  /**
    While a search with token `t` is pending, results for any other token
    change nothing and put nothing, however many arrive.
   */
  lemma {:induction false} StaleResultsIgnored(s: State, t: string, events: seq<Event>)
    requires s.pending == Some(t)
    requires forall i :: 0 <= i < |events| ==>
               events[i].SearchRoomsFinish? && events[i].search != t
    ensures Run(s, events) == StepResult(s, [])
    decreases |events|
  {
    if events != [] {
      assert Step(s, events[0]) == StepResult(s, []);
      assert forall i :: 0 <= i < |events[1..]| ==> events[1..][i] == events[i + 1];
      StaleResultsIgnored(s, t, events[1..]);
    }
  }

  /**
    After a search for `a` is superseded by a search for `b`, no result for
    `a` is ever committed, whatever arrives before the next search.
   */
  lemma SupersededSearchNeverCommits(s: State, a: string, b: string, events: seq<Event>)
    requires a != b
    requires NoSearch(events)
    ensures var outs := Run(s, [SearchRooms(a), SearchRooms(b)] + events).outputs;
            forall i :: 0 <= i < |outs| && outs[i].SetRooms? ==> outs[i].search == b
  {
    var s1 := Step(s, SearchRooms(a));
    var s2 := Step(s1.state, SearchRooms(b));
    var all := [SearchRooms(a), SearchRooms(b)] + events;
    assert all[1..] == [SearchRooms(b)] + events;
    assert ([SearchRooms(b)] + events)[1..] == events;
    CommitsOnlyPendingToken(s2.state, events);
  }

  /** Once a result has been committed, a duplicate of it commits nothing. */
  lemma DuplicateResultIgnored(s: State, t: string, rooms: seq<Room>, again: seq<Room>)
    requires s.pending == Some(t)
    ensures var first := Step(s, SearchRoomsFinish(t, rooms));
            first.state.rooms == rooms &&
            Step(first.state, SearchRoomsFinish(t, again)) == StepResult(first.state, [])
  {
  }

  /**
    Searches for "foo" then "bar"; the result for "bar" arrives, then the
    late result for "foo". Only "bar" is committed and the client keeps
    showing its rooms: the late result is dropped, not applied last.
   */
  lemma LateResultOfSupersededSearch(fooRooms: seq<Room>, barRooms: seq<Room>)
    ensures var r := Run(Initial, [SearchRooms("foo"), SearchRooms("bar"),
                                   SearchRoomsFinish("bar", barRooms),
                                   SearchRoomsFinish("foo", fooRooms)]);
            r.state.rooms == barRooms && r.state.pending == None &&
            r.outputs == [SearchRoomsEmit("foo"), SearchRoomsEmit("bar"),
                          SetRooms("bar", barRooms)]
  {
    var e3 := [SearchRoomsFinish("foo", fooRooms)];
    var e2 := [SearchRoomsFinish("bar", barRooms)] + e3;
    var e1 := [SearchRooms("bar")] + e2;
    var e0 := [SearchRooms("foo")] + e1;
    var s1 := Step(Initial, SearchRooms("foo")).state;
    var s2 := Step(s1, SearchRooms("bar")).state;
    var s3 := Step(s2, SearchRoomsFinish("bar", barRooms)).state;
    assert s3 == State(None, barRooms, "bar");
    assert Run(s3, e3) == StepResult(s3, []) by {
      assert e3[1..] == [];
    }
    assert Run(s2, e2) == StepResult(s3, [SetRooms("bar", barRooms)]) by {
      assert e2[1..] == e3;
    }
    assert Run(s1, e1) == StepResult(s3, [SearchRoomsEmit("bar"), SetRooms("bar", barRooms)]) by {
      assert e1[1..] == e2;
    }
    assert Run(Initial, e0) == StepResult(s3, [SearchRoomsEmit("foo"), SearchRoomsEmit("bar"),
                                               SetRooms("bar", barRooms)]) by {
      assert e0[1..] == e1;
    }
    assert e0 == [SearchRooms("foo"), SearchRooms("bar"),
                  SearchRoomsFinish("bar", barRooms), SearchRoomsFinish("foo", fooRooms)];
  }
}
