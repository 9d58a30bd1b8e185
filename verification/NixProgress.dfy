/** The totals that the progress of a Nix build reports: bytes transferred, and builds.

    A transfer counts while it runs with its latest report, and afterwards with its last one. Reports for activities
    that are not running are ignored.
 */
module NixProgress {
  type Id = nat

  const MAX_ACTIVITIES := 2048

  datatype Kind = Transfer | Downloads | Builds | Build

  datatype Counts = Counts(done: nat, expected: nat, running: nat, failed: nat)

  const NONE := Counts(0, 0, 0, 0)

  datatype Activity = Activity(kind: Kind, counts: Counts)

  // A classified event of the log; everything else is not an event.
  datatype Event =
    | Start(id: Id, kind: Kind)
    | Report(id: Id, counts: Counts)
    | Expect(id: Id, bytes: nat)
    | Stop(id: Id)

  datatype Snapshot = Snapshot(active: bool, doneBytes: nat, expectedBytes: nat, transfers: nat, totalKnown: bool,
                               built: nat, buildsExpected: nat, building: nat, buildsFailed: nat)

  function Max(a: nat, b: nat): nat {
    if a >= b then a else b
  }

  function Ids(activities: map<Id, Activity>, kind: Kind): set<Id> {
    set id | id in activities && activities[id].kind == kind
  }

  // ---------------------------------------------------------------------------------------------------------------
  // Sums
  // ---------------------------------------------------------------------------------------------------------------

  // A number of each running transfer: what it did, or what it did or expects.
  datatype Measure = DoneBytes | TotalBytes

  function Measured(m: Measure, c: Counts): nat {
    if m.DoneBytes? then c.done else Max(c.done, c.expected)
  }

  ghost function Sum(activities: map<Id, Activity>, ids: set<Id>, m: Measure): nat
    requires ids <= activities.Keys
  {
    if ids == {} then 0
    else
      var id :| id in ids;
      Measured(m, activities[id].counts) + Sum(activities, ids - {id}, m)
  }

  lemma {:induction false} SumWithout(activities: map<Id, Activity>, ids: set<Id>, id: Id, m: Measure)
    requires ids <= activities.Keys && id in ids
    ensures Sum(activities, ids, m) == Measured(m, activities[id].counts) + Sum(activities, ids - {id}, m)
  {
    var first :| first in ids && Sum(activities, ids, m)
      == Measured(m, activities[first].counts) + Sum(activities, ids - {first}, m);
    if first != id {
      SumWithout(activities, ids - {first}, id, m);
      SumWithout(activities, ids - {id}, first, m);
      assert ids - {first} - {id} == ids - {id} - {first};
    }
  }

  /** The sum over one activity more is larger by what that did, or by what it did or expects, whichever is more. */
  lemma SumIs(activities: map<Id, Activity>, ids: set<Id>, id: Id)
    requires ids <= activities.Keys && id in activities && id !in ids
    ensures Sum(activities, {}, DoneBytes) == Sum(activities, {}, TotalBytes) == 0
    ensures Sum(activities, ids + {id}, DoneBytes) == Sum(activities, ids, DoneBytes) + activities[id].counts.done
    ensures var c := activities[id].counts;
      Sum(activities, ids + {id}, TotalBytes)
        == Sum(activities, ids, TotalBytes) + if c.expected > c.done then c.expected else c.done
  {
    assert ids + {id} - {id} == ids;
    SumWithout(activities, ids + {id}, id, DoneBytes);
    SumWithout(activities, ids + {id}, id, TotalBytes);
  }

  lemma {:induction false} SumAgrees(a: map<Id, Activity>, b: map<Id, Activity>, ids: set<Id>, m: Measure)
    requires ids <= a.Keys && ids <= b.Keys && forall id :: id in ids ==> a[id] == b[id]
    ensures Sum(a, ids, m) == Sum(b, ids, m)
  {
    if ids != {} {
      var id :| id in ids;
      SumWithout(a, ids, id, m);
      SumWithout(b, ids, id, m);
      SumAgrees(a, b, ids - {id}, m);
    }
  }

  lemma {:induction false} TotalCoversDone(activities: map<Id, Activity>, ids: set<Id>)
    requires ids <= activities.Keys
    ensures Sum(activities, ids, DoneBytes) <= Sum(activities, ids, TotalBytes)
  {
    if ids != {} {
      var id :| id in ids;
      SumWithout(activities, ids, id, DoneBytes);
      SumWithout(activities, ids, id, TotalBytes);
      TotalCoversDone(activities, ids - {id});
    }
  }

  // ---------------------------------------------------------------------------------------------------------------
  // Totals
  // ---------------------------------------------------------------------------------------------------------------

  datatype Totals = Totals(activities: map<Id, Activity>, transferred: nat, downloadExpected: nat, builds: Counts,
                           closed: bool)

  // The bytes done, by all transfers that ever ran.
  ghost function Done(t: Totals): nat {
    t.transferred + Sum(t.activities, Ids(t.activities, Transfer), DoneBytes)
  }

  function Step(t: Totals, e: Event): Totals {
    match e
    case Start(id, kind) =>
      if id in t.activities || |t.activities| >= MAX_ACTIVITIES then t
      else t.(activities := t.activities[id := Activity(kind, NONE)])
    case Report(id, counts) =>
      if id !in t.activities then t
      else
        var a := t.activities[id];
        t.(activities := t.activities[id := a.(counts := counts)], builds := if a.kind.Builds? then counts else t.builds)
    case Expect(id, bytes) =>
      if id in t.activities && t.activities[id].kind.Downloads? then t.(downloadExpected := bytes) else t
    case Stop(id) =>
      if id !in t.activities then t
      else
        var a := t.activities[id];
        t.(activities := t.activities - {id},
           transferred := if a.kind.Transfer? then t.transferred + a.counts.done else t.transferred)
  }

  function Run(t: Totals, events: seq<Event>): Totals {
    if events == [] then t else Step(Run(t, events[..|events| - 1]), events[|events| - 1])
  }

  ghost function Closed(t: Totals): Totals {
    t.(activities := map[], transferred := Done(t), closed := true)
  }

  // What an event adds to the bytes done: only a report of a running transfer adds, namely its difference.
  function Gain(t: Totals, e: Event): int {
    if e.Report? && e.id in t.activities && t.activities[e.id].kind.Transfer?
    then e.counts.done - t.activities[e.id].counts.done
    else 0
  }

  function TotalGain(t: Totals, events: seq<Event>): int {
    if events == [] then 0
    else
      var front := events[..|events| - 1];
      TotalGain(t, front) + Gain(Run(t, front), events[|events| - 1])
  }

  /** An activity starts with nothing done, unless it runs already or 2048 do; a report replaces its numbers, and those of
      the builds if it is the one for all builds; a stopped transfer stays in the total. */
  lemma StepIs(t: Totals, e: Event)
    ensures e.Start? ==>
      Step(t, e) == if e.id in t.activities || |t.activities| >= 2048 then t
                    else t.(activities := t.activities[e.id := Activity(e.kind, Counts(0, 0, 0, 0))])
    ensures !e.Start? && e.id !in t.activities ==> Step(t, e) == t
    ensures e.Report? && e.id in t.activities ==>
      var kind := t.activities[e.id].kind;
      Step(t, e) == t.(activities := t.activities[e.id := Activity(kind, e.counts)],
                       builds := if kind == Builds then e.counts else t.builds)
    ensures e.Expect? && e.id in t.activities ==>
      Step(t, e) == t.(downloadExpected := if t.activities[e.id].kind == Downloads then e.bytes else t.downloadExpected)
    ensures e.Stop? && e.id in t.activities ==>
      var a := t.activities[e.id];
      Step(t, e) == t.(activities := t.activities - {e.id},
                       transferred := t.transferred + if a.kind == Transfer then a.counts.done else 0)
  {
  }

  /** Starting, stopping and expecting conserve the bytes done; a report changes them by its difference. */
  lemma StepKeepsBytes(t: Totals, e: Event)
    ensures Done(Step(t, e)) == Done(t) + Gain(t, e)
  {
    var u := Step(t, e);
    var before, after := Ids(t.activities, Transfer), Ids(u.activities, Transfer);
    match e
    case Start(id, kind) =>
      if u != t {
        SumAgrees(t.activities, u.activities, before, DoneBytes);
        if kind.Transfer? {
          SumWithout(u.activities, after, id, DoneBytes);
          assert after - {id} == before;
        } else {
          assert after == before;
        }
      }
    case Report(id, _) =>
      assert after == before;
      SumAgrees(t.activities, u.activities, before - {id}, DoneBytes);
      if id in before {
        SumWithout(t.activities, before, id, DoneBytes);
        SumWithout(u.activities, after, id, DoneBytes);
      } else {
        assert before - {id} == before;
      }
    case Expect(_, _) =>
    case Stop(id) =>
      assert after == before - {id};
      SumAgrees(t.activities, u.activities, after, DoneBytes);
      if id in before {
        SumWithout(t.activities, before, id, DoneBytes);
      } else {
        assert after == before;
      }
  }

  /** Over a whole log the bytes done are exactly what the reports of running transfers added up to. */
  lemma {:induction false} RunKeepsBytes(t: Totals, events: seq<Event>)
    ensures Done(Run(t, events)) == Done(t) + TotalGain(t, events)
  {
    if events != [] {
      RunKeepsBytes(t, events[..|events| - 1]);
      StepKeepsBytes(Run(t, events[..|events| - 1]), events[|events| - 1]);
    }
  }

  /** The reported bytes fall exactly when a running transfer reports less than before. */
  lemma BytesFallIff(t: Totals, e: Event)
    ensures Done(Step(t, e)) < Done(t) <==>
      e.Report? && e.id in t.activities && t.activities[e.id].kind.Transfer?
      && e.counts.done < t.activities[e.id].counts.done
  {
    StepKeepsBytes(t, e);
  }

  /** Closing conserves the bytes done, also those of transfers that never stopped, and closing again changes nothing. */
  lemma ClosingKeepsBytes(t: Totals)
    ensures Done(Closed(t)) == Done(t) && Closed(Closed(t)) == Closed(t)
  {
    assert Ids(Closed(t).activities, Transfer) == {};
  }

  ghost predicate IsSnapshot(t: Totals, s: Snapshot) {
    var transfers, builds := Ids(t.activities, Transfer), Ids(t.activities, Build);
    var total := t.transferred + Sum(t.activities, transfers, TotalBytes);
    && s.active == !t.closed
    && s.doneBytes == Done(t) && s.expectedBytes == Max(Done(t), Max(t.downloadExpected, total))
    && s.transfers == |transfers|
    && (s.totalKnown <==>
          s.expectedBytes > 0 && forall id :: id in transfers ==> t.activities[id].counts.expected > 0)
    && s.built == t.builds.done && s.buildsExpected == t.builds.expected && s.buildsFailed == t.builds.failed
    && s.building == if t.closed then 0 else Max(|builds|, t.builds.running)
  }

  /** A snapshot shows the bytes of all transfers that ever ran and expects at least these, at least what was announced
      and at least what the running ones did or expect; builds are the reported ones, and at least those that run. */
  lemma SnapshotShows(t: Totals, s: Snapshot)
    requires IsSnapshot(t, s)
    ensures var transfers := set id | id in t.activities && t.activities[id].kind == Transfer;
      var total := t.transferred + Sum(t.activities, transfers, TotalBytes);
      && s.doneBytes == t.transferred + Sum(t.activities, transfers, DoneBytes)
      && s.expectedBytes >= s.doneBytes && s.expectedBytes >= t.downloadExpected && s.expectedBytes >= total
      && s.expectedBytes in {s.doneBytes, t.downloadExpected, total} && s.transfers == |transfers|
      && (s.totalKnown <==>
            s.expectedBytes > 0 && forall id :: id in transfers ==> t.activities[id].counts.expected > 0)
    ensures var running := set id | id in t.activities && t.activities[id].kind == Build;
      && (t.closed ==> !s.active && s.building == 0)
      && (!t.closed ==> s.active && s.building == if |running| > t.builds.running then |running| else t.builds.running)
      && s.built == t.builds.done && s.buildsExpected == t.builds.expected && s.buildsFailed == t.builds.failed
  {
    assert Ids(t.activities, Transfer) == set id | id in t.activities && t.activities[id].kind == Transfer;
    assert Ids(t.activities, Build) == set id | id in t.activities && t.activities[id].kind == Build;
  }

  /** Closing changes neither the bytes nor the builds that are shown as done; the last snapshot shows nothing active. */
  lemma LastSnapshotShowsAll(t: Totals, s: Snapshot, last: Snapshot)
    requires IsSnapshot(t, s) && IsSnapshot(Closed(t), last)
    ensures last.doneBytes == s.doneBytes <= last.expectedBytes <= s.expectedBytes
    ensures last.built == s.built && last.buildsFailed == s.buildsFailed
    ensures !last.active && last.transfers == 0 && last.building == 0
  {
    ClosingKeepsBytes(t);
    assert Ids(Closed(t).activities, Transfer) == {};
    TotalCoversDone(t.activities, Ids(t.activities, Transfer));
  }

  class Progress {
    var activities: map<Id, Activity>
    var transferred: nat
    var downloadExpected: nat
    var builds: Counts
    var closed: bool

    function State(): Totals
      reads this
    {
      Totals(activities, transferred, downloadExpected, builds, closed)
    }

    constructor ()
      ensures State() == Totals(map[], 0, 0, NONE, false) && Done(State()) == 0
    {
      activities, transferred, downloadExpected, builds, closed := map[], 0, 0, NONE, false;
      new;
      assert Ids(activities, Transfer) == {};
    }

    method Line(e: Event)
      modifies this
      ensures State() == Step(old(State()), e)
      ensures Done(State()) == old(Done(State())) + Gain(old(State()), e)
    {
      StepKeepsBytes(State(), e);
      match e
      case Start(id, kind) =>
        if id !in activities && |activities| < MAX_ACTIVITIES {
          activities := activities[id := Activity(kind, NONE)];
        }
      case Report(id, counts) =>
        if id in activities {
          if activities[id].kind.Builds? {
            builds := counts;
          }
          activities := activities[id := activities[id].(counts := counts)];
        }
      case Expect(id, bytes) =>
        if id in activities && activities[id].kind.Downloads? {
          downloadExpected := bytes;
        }
      case Stop(id) =>
        if id in activities {
          var a := activities[id];
          activities := activities - {id};
          if a.kind.Transfer? {
            transferred := transferred + a.counts.done;
          }
        }
    }

    method Add(ids: set<Id>, measure: Measure) returns (sum: nat)
      requires ids <= activities.Keys
      ensures sum == Sum(activities, ids, measure)
    {
      var todo := ids;
      sum := 0;
      while todo != {}
        invariant todo <= ids && sum + Sum(activities, todo, measure) == Sum(activities, ids, measure)
      {
        var id :| id in todo;
        SumWithout(activities, todo, id, measure);
        sum := sum + Measured(measure, activities[id].counts);
        todo := todo - {id};
      }
    }

    method TakeSnapshot() returns (s: Snapshot)
      ensures IsSnapshot(State(), s)
    {
      var transfers, builds := Ids(activities, Transfer), Ids(activities, Build);
      var done := Add(transfers, DoneBytes);
      var total := Add(transfers, TotalBytes);
      done, total := transferred + done, transferred + total;
      var expected := Max(done, Max(downloadExpected, total));
      var known := expected > 0 && forall id :: id in transfers ==> activities[id].counts.expected > 0;
      s := Snapshot(!closed, done, expected, |transfers|, known, this.builds.done, this.builds.expected,
                    if closed then 0 else Max(|builds|, this.builds.running), this.builds.failed);
    }

    method Close()
      modifies this
      ensures State() == Closed(old(State())) && Done(State()) == old(Done(State()))
    {
      ClosingKeepsBytes(State());
      var done := Add(Ids(activities, Transfer), DoneBytes);
      activities, transferred, closed := map[], transferred + done, true;
    }
  }
}
