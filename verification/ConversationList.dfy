/** The assistant bridge's cached conversation list while list requests and deletes overlap.

    List responses arrive late and out of order. Every request carries a generation; a confirmed delete leaves a
    tombstone with the generation current at that moment, and a response ignores rows whose tombstone is not older than
    its own request. `ConfirmedRowReappearsIff` proves that no list restores such a row under any interleaving, although
    tombstones are dropped as soon as a response finds no older request in flight; a late response to the creation of
    the conversation does.
 */
module ConversationList {
  import opened Wrappers

  type Id = string

  datatype Status = Idle | Working | Waiting

  datatype Record = Record(status: Status, unread: bool, stream: string)

  // One row of a list response. A malformed row is skipped.
  datatype Raw = Row(id: Id, status: Status, stream: string) | Malformed

  datatype Client = Client(
    generation: nat,
    requests: set<nat>,
    tombstones: map<Id, nat>,
    rows: map<Id, Record>,
    selected: Option<Id>)

  // ---------------------------------------------------------------------------------------------------------------
  // One response, as a function
  // ---------------------------------------------------------------------------------------------------------------

  function Merge(raw: Raw, previous: map<Id, Record>): Record
    requires raw.Row?
  {
    Record(raw.status, raw.id in previous && previous[raw.id].unread, raw.stream)
  }

  function Accepted(response: seq<Raw>, previous: map<Id, Record>, blocked: set<Id>): map<Id, Record> {
    if response == [] then map[]
    else
      var rest, raw := Accepted(response[..|response| - 1], previous, blocked), response[|response| - 1];
      if raw.Malformed? || raw.id in blocked then rest else rest[raw.id := Merge(raw, previous)]
  }

  // Rows whose delete was confirmed at or after the request.
  function Blocked(tombstones: map<Id, nat>, request: nat): set<Id> {
    set id | id in tombstones && tombstones[id] >= request
  }

  function Pruned(tombstones: map<Id, nat>, oldest: nat): map<Id, nat> {
    map id | id in tombstones && tombstones[id] >= oldest :: tombstones[id]
  }

  // The selected row survives its absence from a response only while its turn is running.
  predicate Transient(c: Client) {
    c.selected.Some? && c.selected.value in c.rows && c.rows[c.selected.value].status in {Working, Waiting}
  }

  function Incoming(c: Client, request: nat, response: seq<Raw>): map<Id, Record> {
    var accepted := Accepted(response, c.rows, Blocked(c.tombstones, request));
    if Transient(c) && c.selected.value !in accepted
    then accepted[c.selected.value := c.rows[c.selected.value]] else accepted
  }

  // The oldest request still in flight, or the next generation when there is none.
  ghost predicate IsOldest(requests: set<nat>, generation: nat, oldest: nat) {
    if requests == {} then oldest == generation + 1
    else oldest in requests && forall r :: r in requests ==> oldest <= r
  }

  ghost predicate Delivered(c: Client, request: nat, response: seq<Raw>, c': Client) {
    && c'.generation == c.generation
    && c'.requests == c.requests - {request}
    && (exists oldest :: IsOldest(c'.requests, c.generation, oldest) && c'.tombstones == Pruned(c.tombstones, oldest))
    && c'.rows == Incoming(c, request, response)
    && c'.selected == if c.selected.Some? && c.selected.value in c'.rows then c.selected else None
  }

  function Removed(c: Client, id: Id): Client {
    c.(rows := c.rows - {id}, selected := if c.selected == Some(id) then None else c.selected)
  }

  lemma {:induction false} AcceptedIds(response: seq<Raw>, previous: map<Id, Record>, blocked: set<Id>, id: Id)
    ensures id in Accepted(response, previous, blocked) <==>
      id !in blocked && exists k :: 0 <= k < |response| && response[k].Row? && response[k].id == id
  {
    if response != [] {
      var front, n := response[..|response| - 1], |response| - 1;
      AcceptedIds(front, previous, blocked, id);
      assert forall k :: 0 <= k < n ==> front[k] == response[k];
    }
  }

  // The last row of the response that names the conversation.
  ghost predicate IsLastRow(response: seq<Raw>, k: int, id: Id) {
    && 0 <= k < |response| && response[k].Row? && response[k].id == id
    && forall j :: k < j < |response| && response[j].Row? ==> response[j].id != id
  }

  /** The last row of an identity counts; it keeps the earlier `unread`. */
  lemma {:induction false} LastRowCounts(response: seq<Raw>, previous: map<Id, Record>, blocked: set<Id>, k: nat)
    requires k < |response| && response[k].Row? && response[k].id !in blocked
    requires IsLastRow(response, k, response[k].id)
    ensures var raw, accepted := response[k], Accepted(response, previous, blocked);
      && raw.id in accepted
      && accepted[raw.id] == Record(raw.status, raw.id in previous && previous[raw.id].unread, raw.stream)
  {
    var front := response[..|response| - 1];
    if k < |response| - 1 {
      assert forall j :: 0 <= j < |front| ==> front[j] == response[j];
      LastRowCounts(front, previous, blocked, k);
    }
  }

  // A row of the response names the conversation, and no delete was confirmed since the request.
  ghost predicate ListedBy(c: Client, request: nat, response: seq<Raw>, id: Id) {
    && (exists k :: 0 <= k < |response| && response[k].Row? && response[k].id == id)
    && !(id in c.tombstones && c.tombstones[id] >= request)
  }

  /** Exactly which rows a list leaves, and which records they have: those it names, with their last row, and the
      selected one while its turn is running, as it was. */
  lemma RowsAfterList(c: Client, request: nat, response: seq<Raw>, c': Client, id: Id)
    requires Delivered(c, request, response, c')
    ensures id in c'.rows <==>
      || ListedBy(c, request, response, id)
      || (c.selected == Some(id) && id in c.rows && c.rows[id].status != Idle)
    ensures ListedBy(c, request, response, id) ==> forall k :: IsLastRow(response, k, id) ==>
      c'.rows[id] == Record(response[k].status, id in c.rows && c.rows[id].unread, response[k].stream)
    ensures id in c'.rows && !ListedBy(c, request, response, id) ==> c'.rows[id] == c.rows[id] && c'.selected == Some(id)
    ensures c'.selected == if c.selected.Some? && c.selected.value in c'.rows then c.selected else None
  {
    var blocked := Blocked(c.tombstones, request);
    AcceptedIds(response, c.rows, blocked, id);
    forall k | IsLastRow(response, k, id) && id !in blocked
      ensures id in Accepted(response, c.rows, blocked)
      ensures Accepted(response, c.rows, blocked)[id] ==
        Record(response[k].status, id in c.rows && c.rows[id].unread, response[k].stream)
    {
      LastRowCounts(response, c.rows, blocked, k);
    }
  }

  // ---------------------------------------------------------------------------------------------------------------
  // The imperative bridge
  // ---------------------------------------------------------------------------------------------------------------

  class Bridge {
    var generation: nat
    var requests: set<nat>
    var tombstones: map<Id, nat>
    var rows: map<Id, Record>
    var selected: Option<Id>

    ghost function State(): Client
      reads this
    {
      Client(generation, requests, tombstones, rows, selected)
    }

    constructor ()
      ensures State() == Client(0, {}, map[], map[], None)
    {
      generation, requests, tombstones, rows, selected := 0, {}, map[], map[], None;
    }

    method BeginRefresh() returns (request: nat)
      modifies this
      ensures request == old(generation) + 1
      ensures State() == old(State()).(generation := request, requests := old(requests) + {request})
    {
      generation := generation + 1;
      request := generation;
      requests := requests + {request};
    }

    method RefreshFailed(request: nat)
      modifies this
      ensures State() == old(State()).(requests := old(requests) - {request})
    {
      requests := requests - {request};
    }

    method OldestRequest() returns (oldest: nat)
      ensures IsOldest(requests, generation, oldest)
    {
      if requests == {} {
        return generation + 1;
      }
      oldest :| oldest in requests;
      var rest := requests - {oldest};
      while rest != {}
        invariant rest <= requests && oldest in requests
        invariant forall r :: r in requests && r !in rest ==> oldest <= r
      {
        var r :| r in rest;
        oldest := if r < oldest then r else oldest;
        rest := rest - {r};
      }
    }

    /** A response arrived: install its rows, except those deleted since it was requested, and forget the deletes that
        no request in flight predates. */
    method RefreshArrived(request: nat, response: seq<Raw>)
      modifies this
      ensures Delivered(old(State()), request, response, State())
      // The rows are those that the list names and no delete blocks, and the selected one while its turn is running.
      ensures forall id :: id in rows <==>
        || ((exists k :: 0 <= k < |response| && response[k].Row? && response[k].id == id)
            && !(id in old(tombstones) && old(tombstones)[id] >= request))
        || (old(selected) == Some(id) && id in old(rows) && old(rows)[id].status in {Working, Waiting})
      ensures selected == if old(selected).Some? && old(selected).value in rows then old(selected) else None
    {
      ghost var before := State();
      requests := requests - {request};
      var blocked := Blocked(tombstones, request);
      var oldest := OldestRequest();
      tombstones := Pruned(tombstones, oldest);
      var incoming: map<Id, Record> := map[];
      for k := 0 to |response|
        invariant incoming == Accepted(response[..k], rows, blocked)
      {
        assert response[..k + 1][..k] == response[..k];
        var raw := response[k];
        if raw.Row? && raw.id !in blocked {
          incoming := incoming[raw.id := Merge(raw, rows)];
        }
      }
      assert response[..|response|] == response;
      if selected.Some? && selected.value in rows && rows[selected.value].status in {Working, Waiting}
        && selected.value !in incoming
      {
        incoming := incoming[selected.value := rows[selected.value]];
      }
      rows := incoming;
      if selected.Some? && selected.value !in incoming {
        selected := None;
      }
      forall id
        ensures id in rows <==>
          || ListedBy(before, request, response, id)
          || (before.selected == Some(id) && id in before.rows && before.rows[id].status != Idle)
      {
        RowsAfterList(before, request, response, State(), id);
      }
    }

    // The server confirmed a delete; several awaits later the row itself goes.
    method DeleteConfirmed(id: Id)
      modifies this
      ensures State() == old(State()).(tombstones := old(tombstones)[id := old(generation)])
    {
      tombstones := tombstones[id := generation];
    }

    method FinishDelete(id: Id)
      modifies this
      ensures State() == Removed(old(State()), id)
    {
      rows := rows - {id};
      if selected == Some(id) {
        selected := None;
      }
    }
  }

  // ---------------------------------------------------------------------------------------------------------------
  // Every interleaving with the server
  // ---------------------------------------------------------------------------------------------------------------

  /** The bridge and the server. `listed` are the server's conversations and `answers` the responses it has sent to
      requests still in flight, and `creating` the conversations it created whose response is in flight. An id that was
      deleted on the server is never used again. `confirmed` holds the ids whose delete the bridge knows about. */
  datatype World = World(
    client: Client,
    listed: set<Id>,
    deleted: set<Id>,
    creating: set<Id>,
    answers: map<nat, seq<Raw>>,
    confirmed: set<Id>)

  datatype Event =
    | Request
    | Answer(request: nat, response: seq<Raw>)
    | Arrive(request: nat)
    | Fail(request: nat)
    | ServerCreate(id: Id)
    | Created(id: Id, record: Record)
    | Select(id: Id)
    | ServerDelete(id: Id)
    | Confirm(id: Id)
    | Finish(id: Id)

  ghost predicate Step(w: World, e: Event, w': World) {
    match e
    case Request =>
      var g := w.client.generation + 1;
      w' == w.(client := w.client.(generation := g, requests := w.client.requests + {g}))
    case Answer(request, response) =>
      && request in w.client.requests && request !in w.answers
      && (forall k :: 0 <= k < |response| && response[k].Row? ==> response[k].id in w.listed)
      && w' == w.(answers := w.answers[request := response])
    case Arrive(request) =>
      && request in w.client.requests && request in w.answers
      && Delivered(w.client, request, w.answers[request], w'.client)
      && w' == w.(client := w'.client, answers := w.answers - {request})
    case Fail(request) =>
      w' == w.(client := w.client.(requests := w.client.requests - {request}), answers := w.answers - {request})
    case ServerCreate(id) =>
      && id !in w.deleted
      && w' == w.(listed := w.listed + {id}, creating := w.creating + {id})
    case Created(id, record) =>
      && id in w.creating
      && w' == w.(client := w.client.(rows := w.client.rows[id := record], selected := Some(id)),
                  creating := w.creating - {id})
    case Select(id) =>
      w' == w.(client := w.client.(selected := Some(id)))
    case ServerDelete(id) =>
      w' == w.(listed := w.listed - {id}, deleted := w.deleted + {id})
    case Confirm(id) =>
      && id in w.deleted
      && w' == w.(client := w.client.(tombstones := w.client.tombstones[id := w.client.generation]),
                  confirmed := w.confirmed + {id})
    case Finish(id) =>
      && id in w.confirmed
      && w' == w.(client := Removed(w.client, id))
  }

  ghost predicate Lists(response: seq<Raw>, id: Id) {
    exists k :: 0 <= k < |response| && response[k].Row? && response[k].id == id
  }

  // A response in flight that still lists a row whose delete was confirmed meets a tombstone that blocks the row.
  ghost predicate StaleRowsBlocked(w: World) {
    forall request, id :: request in w.answers && id in w.confirmed && Lists(w.answers[request], id) ==>
      id in w.client.tombstones && w.client.tombstones[id] >= request
  }

  ghost predicate Inv(w: World) {
    && (forall id :: id in w.listed ==> id !in w.deleted)
    && w.confirmed <= w.deleted
    && (forall r :: r in w.client.requests ==> r <= w.client.generation)
    && (forall r :: r in w.answers ==> r in w.client.requests)
    && StaleRowsBlocked(w)
  }

  // An arriving response installs no confirmed-deleted row of its own; only a row that is still there may stay.
  lemma ArrivalRestoresNothing(w: World, request: nat, w': World, id: Id)
    requires Inv(w) && Step(w, Arrive(request), w') && id in w.confirmed && id !in w.client.rows
    ensures id !in w'.client.rows
  {
    var blocked := Blocked(w.client.tombstones, request);
    AcceptedIds(w.answers[request], w.client.rows, blocked, id);
    assert Lists(w.answers[request], id) ==> id in blocked;
  }

  // Dropping tombstones keeps every response in flight covered.
  lemma PruningKeepsStaleRowsBlocked(w: World, request: nat, w': World)
    requires Inv(w) && Step(w, Arrive(request), w')
    ensures StaleRowsBlocked(w')
  {
    var oldest :| IsOldest(w'.client.requests, w.client.generation, oldest)
      && w'.client.tombstones == Pruned(w.client.tombstones, oldest);
    forall r, id | r in w'.answers && id in w'.confirmed && Lists(w'.answers[r], id)
      ensures id in w'.client.tombstones && w'.client.tombstones[id] >= r
    {
      assert r in w.answers && r in w.client.requests && r in w'.client.requests;
      assert oldest <= r;
      assert w.client.tombstones[id] >= r;
    }
  }

  lemma StepKeepsInv(w: World, e: Event, w': World)
    requires Inv(w) && Step(w, e, w')
    ensures Inv(w')
  {
    match e
    case Arrive(request) =>
      PruningKeepsStaleRowsBlocked(w, request, w');
    case Answer(request, response) =>
      assert forall id :: id in w.confirmed ==> !Lists(response, id);
    case Confirm(id) =>
    case Fail(request) =>
    case ServerCreate(id) =>
    case Created(id, record) =>
    case Request =>
    case Select(id) =>
    case ServerDelete(id) =>
    case Finish(id) =>
  }

  ghost predicate Initial(w: World) {
    w.client == Client(0, {}, map[], map[], None) && w.deleted == w.creating == w.confirmed == {}
    && w.answers == map[]
  }

  ghost predicate IsRun(run: seq<World>, events: seq<Event>) {
    && |run| == |events| + 1
    && Initial(run[0])
    && forall k :: 0 <= k < |events| ==> Step(run[k], events[k], run[k + 1])
  }

  lemma {:induction false} RunKeepsInv(run: seq<World>, events: seq<Event>, k: nat)
    requires IsRun(run, events) && k < |run|
    ensures Inv(run[k])
  {
    if k > 0 {
      RunKeepsInv(run, events, k - 1);
      StepKeepsInv(run[k - 1], events[k - 1], run[k]);
    }
  }

  lemma {:induction false} ConfirmedStays(run: seq<World>, events: seq<Event>, i: nat, j: nat)
    requires IsRun(run, events) && i <= j < |run|
    ensures run[i].confirmed <= run[j].confirmed && run[i].deleted <= run[j].deleted
    decreases j - i
  {
    if i < j {
      ConfirmedStays(run, events, i, j - 1);
      assert Step(run[j - 1], events[j - 1], run[j]);
    }
  }

  /** Once a delete is confirmed, the row it removed comes back in exactly one way: the response to the request that
      created the conversation arrives late. No list does it. */
  lemma ConfirmedRowReappearsIff(run: seq<World>, events: seq<Event>, k: nat, id: Id)
    requires IsRun(run, events) && k < |events| && id in run[k].confirmed && id !in run[k].client.rows
    ensures id in run[k + 1].client.rows <==> events[k].Created? && events[k].id == id
  {
    RunKeepsInv(run, events, k);
    assert Step(run[k], events[k], run[k + 1]);
    if events[k].Arrive? {
      ArrivalRestoresNothing(run[k], events[k].request, run[k + 1], id);
    }
  }

  /** Until such a response arrives, the row is absent, whatever lists were in flight and in whatever order they
      arrive. */
  lemma {:induction false} RunNeverRestores(run: seq<World>, events: seq<Event>, i: nat, j: nat, id: Id)
    requires IsRun(run, events) && i < |events| && events[i] == Finish(id) && i < j < |run|
    requires forall k :: i < k < j ==> !(events[k].Created? && events[k].id == id)
    ensures id !in run[j].client.rows
    decreases j
  {
    assert Step(run[i], events[i], run[i + 1]);
    if j > i + 1 {
      RunNeverRestores(run, events, i, j - 1, id);
      ConfirmedStays(run, events, i, j - 1);
      ConfirmedRowReappearsIff(run, events, j - 1, id);
    }
  }

  /** It never arrives if it was not in flight when the row was removed. */
  lemma {:induction false} SettledDeleteIsFinal(run: seq<World>, events: seq<Event>, i: nat, j: nat, id: Id)
    requires IsRun(run, events) && i < |events| && events[i] == Finish(id) && i < j < |run|
    requires id !in run[i].creating
    ensures id !in run[j].client.rows && id !in run[j].creating
    decreases j
  {
    assert Step(run[i], events[i], run[i + 1]);
    if j > i + 1 {
      SettledDeleteIsFinal(run, events, i, j - 1, id);
      ConfirmedStays(run, events, i, j - 1);
      ConfirmedRowReappearsIff(run, events, j - 1, id);
      RunKeepsInv(run, events, i);
      assert Step(run[j - 1], events[j - 1], run[j]);
    }
  }

  /** A row that comes back: the response to its creation is overtaken by its deletion, requested elsewhere or after a
      list that showed it. */
  lemma LateCreationRestoresRow(id: Id, record: Record)
    ensures var w0 := World(Client(0, {}, map[], map[], None), {}, {}, {}, map[], {});
      var w1 := w0.(listed := {id}, creating := {id});
      var w2 := w1.(listed := {}, deleted := {id});
      var w3 := w2.(client := w2.client.(tombstones := map[id := 0]), confirmed := {id});
      var w4 := w3.(client := w3.client.(rows := map[id := record], selected := Some(id)), creating := {});
      IsRun([w0, w1, w2, w3, w3, w4], [ServerCreate(id), ServerDelete(id), Confirm(id), Finish(id), Created(id, record)])
      && id in w4.confirmed && id in w4.client.rows
  {
    var w0 := World(Client(0, {}, map[], map[], None), {}, {}, {}, map[], {});
    var w1 := w0.(listed := {id}, creating := {id});
    var w2 := w1.(listed := {}, deleted := {id});
    var w3 := w2.(client := w2.client.(tombstones := map[id := 0]), confirmed := {id});
    var w4 := w3.(client := w3.client.(rows := map[id := record], selected := Some(id)), creating := {});
    assert Step(w0, ServerCreate(id), w1) && Step(w1, ServerDelete(id), w2) && Step(w2, Confirm(id), w3);
    assert Removed(w3.client, id).rows == w3.client.rows;
    assert Step(w3, Finish(id), w3) && Step(w3, Created(id, record), w4);
    var run := [w0, w1, w2, w3, w3, w4];
    var events := [ServerCreate(id), ServerDelete(id), Confirm(id), Finish(id), Created(id, record)];
    forall k | 0 <= k < 5
      ensures Step(run[k], events[k], run[k + 1])
    {
    }
  }

  /** A tombstone outlives a response exactly while a request no newer than it is in flight. */
  lemma TombstonesAreMinimal(c: Client, request: nat, response: seq<Raw>, c': Client, id: Id)
    requires Delivered(c, request, response, c') && id in c.tombstones
    requires forall r :: r in c.requests ==> r <= c.generation
    requires c.tombstones[id] <= c.generation
    ensures id in c'.tombstones <==> exists r :: r in c'.requests && r <= c.tombstones[id]
  {
    var oldest :| IsOldest(c'.requests, c.generation, oldest) && c'.tombstones == Pruned(c.tombstones, oldest);
    if id in c'.tombstones {
      assert oldest in c'.requests && oldest <= c.tombstones[id];
    }
  }

  // Some request no newer than generation g is in flight.
  ghost predicate OlderInFlight(w: World, g: nat) {
    exists r :: r in w.client.requests && r <= g
  }

  lemma {:induction false} GenerationGrows(run: seq<World>, events: seq<Event>, i: nat, j: nat)
    requires IsRun(run, events) && i <= j < |run|
    ensures run[i].client.generation <= run[j].client.generation
    decreases j - i
  {
    if i < j {
      GenerationGrows(run, events, i, j - 1);
      assert Step(run[j - 1], events[j - 1], run[j]);
    }
  }

  /** The lifetime of a tombstone: it is dropped by the first list that arrives while no request from before the
      confirmation is in flight, and by nothing else. Requests that fail do not drop it. */
  lemma {:induction false} TombstoneLifetime(run: seq<World>, events: seq<Event>, j: nat, k: nat, id: Id)
    requires IsRun(run, events) && j < |events| && events[j] == Confirm(id) && j < k < |run|
    requires forall i :: j < i < k ==> events[i] != Confirm(id)
    ensures id in run[k].client.tombstones ==> run[k].client.tombstones[id] == run[j].client.generation
    ensures id in run[k].client.tombstones <==>
      forall i :: j < i < k && events[i].Arrive? ==> OlderInFlight(run[i + 1], run[j].client.generation)
    decreases k
  {
    var g, w, e := run[j].client.generation, run[k - 1], events[k - 1];
    assert Step(w, e, run[k]);
    if k - 1 > j {
      TombstoneLifetime(run, events, j, k - 1, id);
      GenerationGrows(run, events, j, k - 1);
      RunKeepsInv(run, events, k - 1);
      if e.Arrive? && id in w.client.tombstones {
        TombstonesAreMinimal(w.client, e.request, w.answers[e.request], run[k].client, id);
        assert OlderInFlight(run[k], g) <==> id in run[k].client.tombstones;
      }
    }
  }

  /** The comment promises more: a delete confirmed while a list request is in flight keeps its tombstone after that
      request failed, though no request is left in flight. So does one that was confirmed with none in flight. */
  lemma FailedListKeepsTombstone(id: Id)
    ensures var w0 := World(Client(0, {}, map[], map[], None), {}, {}, {}, map[], {});
      var w1 := w0.(deleted := {id});
      var w2 := w1.(client := w1.client.(generation := 1, requests := {1}));
      var w3 := w2.(client := w2.client.(tombstones := map[id := 1]), confirmed := {id});
      var w4 := w3.(client := w3.client.(requests := {}));
      var quiet := w1.(client := w1.client.(tombstones := map[id := 0]), confirmed := {id});
      && IsRun([w0, w1, w2, w3, w4], [ServerDelete(id), Request, Confirm(id), Fail(1)])
      && w4.client.requests == {} && id in w4.client.tombstones
      && IsRun([w0, w1, quiet], [ServerDelete(id), Confirm(id)])
      && quiet.client.requests == {} && id in quiet.client.tombstones
  {
    var w0 := World(Client(0, {}, map[], map[], None), {}, {}, {}, map[], {});
    var w1 := w0.(deleted := {id});
    var w2 := w1.(client := w1.client.(generation := 1, requests := {1}));
    var w3 := w2.(client := w2.client.(tombstones := map[id := 1]), confirmed := {id});
    var w4 := w3.(client := w3.client.(requests := {}));
    var run, events := [w0, w1, w2, w3, w4], [ServerDelete(id), Request, Confirm(id), Fail(1)];
    assert Step(w0, ServerDelete(id), w1) && Step(w1, Request, w2) && Step(w2, Confirm(id), w3);
    assert w3.answers - {1} == w3.answers && w3.client.requests - {1} == {};
    assert Step(w3, Fail(1), w4);
    forall k | 0 <= k < 4
      ensures Step(run[k], events[k], run[k + 1])
    {
    }
  }
}
