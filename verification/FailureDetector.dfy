/** The failure detector over whole runs: every drone hears every heartbeat, and a majority of the
    working drones declares a silent one stale. */
module FailureDetector {
  import opened Basics
  import opened Drones
  import opened Heartbeats

  /** The drones, the last beat heard from each (the same at every drone), and the last heartbeat step. */
  datatype Watch = Watch(drones: seq<Drone>, lastSeen: map<DroneId, int>, beatMs: int)

  /** The ids of the working drones. */
  function Online(ds: seq<Drone>): (ids: set<DroneId>)
    ensures forall id :: id in ids <==> exists i :: 0 <= i < |ds| && Active(ds[i]) && ds[i].id == id
  {
    set i | 0 <= i < |ds| && Active(ds[i]) :: ds[i].id
  }

  /** What is on record once everybody in `ids` has beaten. */
  function Beaten(lastSeen: map<DroneId, int>, ids: set<DroneId>, nowMs: int): map<DroneId, int> {
    map d | d in lastSeen.Keys + ids :: if d in ids then nowMs else lastSeen[d]
  }

  /** A heartbeat step declares a live drone stale when its last beat is overdue and anybody is there to notice. */
  predicate Condemned(d: Drone, online: set<DroneId>, lastSeen: map<DroneId, int>, nowMs: int, timeoutMs: int) {
    d.alive && online != {} && d.id in Overdue(lastSeen, nowMs, timeoutMs)
  }

  function HeartbeatStep(w: Watch, nowMs: int, timeoutMs: int): (r: Watch)
    ensures |r.drones| == |w.drones|
  {
    var online := Online(w.drones);
    var lastSeen := Beaten(w.lastSeen, online, nowMs);
    Watch(seq(|w.drones|, i requires 0 <= i < |w.drones| =>
            if Condemned(w.drones[i], online, lastSeen, nowMs, timeoutMs) then MarkedStale(w.drones[i])
                else w.drones[i]),
          lastSeen, nowMs)
  }

  datatype WatchEvent =
    | Beat(nowMs: int)
    | Lose(i: nat)
    | Return(i: nat, position: Coord)
    | Act(i: nat, after: Drone)

  ghost predicate Can(w: Watch, e: WatchEvent) {
    match e
    case Beat(nowMs) => nowMs >= w.beatMs
    case Lose(i) => i < |w.drones|
    case Return(i, _) => i < |w.drones|
    case Act(i, after) =>
      i < |w.drones| && after.id == w.drones[i].id && after.alive == w.drones[i].alive
      && after.reachable == w.drones[i].reachable
  }

  ghost function Then(w: Watch, e: WatchEvent, timeoutMs: int): (r: Watch)
    requires Can(w, e)
    ensures |r.drones| == |w.drones|
  {
    match e
    case Beat(nowMs) => HeartbeatStep(w, nowMs, timeoutMs)
    case Lose(i) => w.(drones := w.drones[i := w.drones[i].(reachable := false)])
    case Return(i, position) => w.(drones := w.drones[i := Revived(w.drones[i], position)])
    case Act(i, after) => w.(drones := w.drones[i := after])
  }

  ghost predicate Watched(w: Watch, events: seq<WatchEvent>, t: Watch, timeoutMs: int)
    decreases |events|
  {
    if events == [] then w == t
    else Can(w, events[0]) && Watched(Then(w, events[0], timeoutMs), events[1..], t, timeoutMs)
  }

  lemma {:induction false} WatchedThen(w: Watch, events: seq<WatchEvent>, m: Watch, more: seq<WatchEvent>, t: Watch,
                                       timeoutMs: int)
    requires Watched(w, events, m, timeoutMs) && Watched(m, more, t, timeoutMs)
    ensures Watched(w, events + more, t, timeoutMs)
    decreases |events|
  {
    hide Can, Then;
    if events == [] {
      assert events + more == more;
    } else {
      assert (events + more)[1..] == events[1..] + more;
      WatchedThen(Then(w, events[0], timeoutMs), events[1..], m, more, t, timeoutMs);
    }
  }

  lemma WatchedOne(w: Watch, e: WatchEvent, timeoutMs: int)
    requires Can(w, e)
    ensures Watched(w, [e], Then(w, e, timeoutMs), timeoutMs)
  {
    assert Watched(Then(w, e, timeoutMs), [e][1..], Then(w, e, timeoutMs), timeoutMs);
  }

  lemma WatchedNone(w: Watch, timeoutMs: int)
    ensures Watched(w, [], w, timeoutMs)
  {}

  /** The same drones, as alive and as reachable as before. */
  ghost predicate SameMesh(before: seq<Drone>, after: seq<Drone>) {
    |before| == |after|
    && forall i :: 0 <= i < |before| ==>
         after[i].id == before[i].id && after[i].alive == before[i].alive && after[i].reachable == before[i].reachable
  }

  /** The first k drones act, one after the other. */
  ghost function Acts(ds: seq<Drone>, k: nat): (events: seq<WatchEvent>)
    requires k <= |ds|
    ensures forall m :: 0 <= m < |events| ==> events[m].Act?
  {
    if k == 0 then [] else Acts(ds, k - 1) + [Act(k - 1, ds[k - 1])]
  }

  lemma {:induction false} ActsReach(w: Watch, ds: seq<Drone>, k: nat, timeoutMs: int)
    requires SameMesh(w.drones, ds) && k <= |ds|
    ensures Watched(w, Acts(ds, k), w.(drones := ds[..k] + w.drones[k..]), timeoutMs)
  {
    if k == 0 {
      assert ds[..0] + w.drones[0..] == w.drones;
      WatchedNone(w, timeoutMs);
    } else {
      ActsReach(w, ds, k - 1, timeoutMs);
      var m := w.(drones := ds[..k - 1] + w.drones[k - 1..]);
      assert m.drones[k - 1] == w.drones[k - 1];
      WatchedOne(m, Act(k - 1, ds[k - 1]), timeoutMs);
      assert m.drones[k - 1 := ds[k - 1]] == ds[..k] + w.drones[k..];
      WatchedThen(w, Acts(ds, k - 1), m, [Act(k - 1, ds[k - 1])], w.(drones := ds[..k] + w.drones[k..]), timeoutMs);
    }
  }

  /** What everybody does between heartbeats is a run of the watch. */
  lemma AllAct(w: Watch, ds: seq<Drone>, timeoutMs: int)
    requires SameMesh(w.drones, ds)
    ensures Watched(w, Acts(ds, |ds|), w.(drones := ds), timeoutMs)
  {
    ActsReach(w, ds, |ds|, timeoutMs);
    assert ds[..|ds|] + w.drones[|ds|..] == ds;
  }

  ghost predicate SameIds(ds: seq<Drone>) {
    forall i, j :: 0 <= i < j < |ds| ==> ds[i].id != ds[j].id
  }

  /** A drone that works at a heartbeat step is not declared stale by it. */
  lemma BeatingDroneKept(w: Watch, nowMs: int, timeoutMs: int, i: nat)
    requires i < |w.drones| && Active(w.drones[i]) && timeoutMs >= 0
    ensures HeartbeatStep(w, nowMs, timeoutMs).drones[i] == w.drones[i]
    ensures w.drones[i].id in HeartbeatStep(w, nowMs, timeoutMs).lastSeen
    ensures HeartbeatStep(w, nowMs, timeoutMs).lastSeen[w.drones[i].id] == nowMs
  {
    assert w.drones[i].id in Online(w.drones);
  }

  /** A silent drone is declared stale by a step exactly when somebody works and its last beat is overdue. */
  lemma SilentDroneStep(w: Watch, nowMs: int, timeoutMs: int, i: nat)
    requires i < |w.drones| && SameIds(w.drones) && !Active(w.drones[i])
    requires w.drones[i].id in w.lastSeen
    ensures var id, r := w.drones[i].id, HeartbeatStep(w, nowMs, timeoutMs);
      && id in r.lastSeen && r.lastSeen[id] == w.lastSeen[id] && r.drones[i].id == id && !Active(r.drones[i])
      && (r.drones[i].alive <==> w.drones[i].alive && (Online(w.drones) == {} || nowMs - w.lastSeen[id] <= timeoutMs))
  {
    assert w.drones[i].id !in Online(w.drones);
  }

  /** The drone works at every heartbeat step of the run. */
  ghost predicate BeatsThroughout(w: Watch, events: seq<WatchEvent>, timeoutMs: int, i: nat)
    decreases |events|
  {
    events == [] ||
    (Can(w, events[0]) && i < |w.drones|
     && (events[0].Beat? ==> Active(w.drones[i]))
     && BeatsThroughout(Then(w, events[0], timeoutMs), events[1..], timeoutMs, i))
  }

  /** No false alarms: over any run, whatever else happens, a drone that works at each heartbeat step is
      never declared stale. */
  lemma {:induction false} NoFalseAlarm(w: Watch, events: seq<WatchEvent>, t: Watch, timeoutMs: int, i: nat)
    requires timeoutMs >= 0 && i < |w.drones| && w.drones[i].alive
    requires Watched(w, events, t, timeoutMs) && BeatsThroughout(w, events, timeoutMs, i)
    ensures i < |t.drones| && t.drones[i].alive
    decreases |events|
  {
    if events != [] {
      var next := Then(w, events[0], timeoutMs);
      if events[0].Beat? {
        BeatingDroneKept(w, events[0].nowMs, timeoutMs, i);
      }
      NoFalseAlarm(next, events[1..], t, timeoutMs, i);
    }
  }

  /** The drone stays off the mesh during the run, and somebody else works at every heartbeat step. */
  ghost predicate SilentThroughout(w: Watch, events: seq<WatchEvent>, timeoutMs: int, i: nat)
    decreases |events|
  {
    events == [] ||
    (Can(w, events[0]) && i < |w.drones|
     && (events[0].Return? ==> events[0].i != i)
     && (events[0].Beat? ==> Online(w.drones) != {})
     && SilentThroughout(Then(w, events[0], timeoutMs), events[1..], timeoutMs, i))
  }

  /** Exact detection: a drone that last beat at time b and stays silent is declared stale by exactly the
      first heartbeat step later than b + timeout. Until then it stays alive, from then on it does not. */
  lemma {:induction false} SilenceDetectedExactly(w: Watch, events: seq<WatchEvent>, t: Watch, timeoutMs: int, i: nat,
                                                  b: int)
    requires i < |w.drones| && SameIds(w.drones) && !Active(w.drones[i])
    requires w.drones[i].id in w.lastSeen && w.lastSeen[w.drones[i].id] == b
    requires w.drones[i].alive <==> w.beatMs - b <= timeoutMs
    requires Watched(w, events, t, timeoutMs) && SilentThroughout(w, events, timeoutMs, i)
    ensures i < |t.drones| && (t.drones[i].alive <==> t.beatMs - b <= timeoutMs)
    decreases |events|
  {
    if events != [] {
      var e := events[0];
      var next := Then(w, e, timeoutMs);
      if e.Beat? {
        SilentDroneStep(w, e.nowMs, timeoutMs, i);
        StepKeepsIds(w, e.nowMs, timeoutMs);
      }
      SilenceDetectedExactly(next, events[1..], t, timeoutMs, i, b);
    }
  }

  lemma StepKeepsIds(w: Watch, nowMs: int, timeoutMs: int)
    requires SameIds(w.drones)
    ensures SameIds(HeartbeatStep(w, nowMs, timeoutMs).drones)
  {}
}
