/** Who was heard from, and when. */
module Heartbeats {
  import opened Basics

  /** The drones whose last beat is too old. */
  function Overdue(lastSeen: map<DroneId, int>, nowMs: int, timeoutMs: int): set<DroneId> {
    set d | d in lastSeen && nowMs - lastSeen[d] > timeoutMs
  }

  class HeartbeatRegistry {
    var lastSeen: map<DroneId, int>
    var stale: set<DroneId>

    constructor ()
      ensures lastSeen == map[] && stale == {}
    {
      lastSeen := map[];
      stale := {};
    }

    method Register(d: DroneId, nowMs: int)
      modifies this
      ensures lastSeen == old(lastSeen)[d := nowMs] && stale == old(stale) - {d}
    {
      lastSeen := lastSeen[d := nowMs];
      stale := stale - {d};
    }

    method MarkStale(d: DroneId)
      modifies this`stale
      ensures stale == old(stale) + {d}
    {
      stale := stale + {d};
    }

    method IsStale(d: DroneId, nowMs: int, timeoutMs: int) returns (r: bool)
      ensures r <==> d in lastSeen && (nowMs - lastSeen[d] > timeoutMs || d in stale)
    {
      r := if d !in lastSeen then false else nowMs - lastSeen[d] > timeoutMs || d in stale;
    }

    /** Staleness is sticky: a drone found stale stays so until it beats again. */
    method DetectStale(nowMs: int, timeoutMs: int) returns (active: set<DroneId>, late: set<DroneId>)
      modifies this`stale
      ensures late == Overdue(lastSeen, nowMs, timeoutMs) + (old(stale) * lastSeen.Keys)
      ensures stale == late && active == lastSeen.Keys - late
    {
      active := set d | d in lastSeen && nowMs - lastSeen[d] <= timeoutMs && d !in stale;
      late := set d | d in lastSeen && (nowMs - lastSeen[d] > timeoutMs || d in stale);
      stale := late;
    }
  }
}
