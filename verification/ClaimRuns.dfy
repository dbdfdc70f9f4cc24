/** What holds of a peer's claims and rounds over every run of its events. */
module ClaimRuns {
  import opened Basics
  import opened Sorting
  import opened Auction
  import opened Drones
  import opened Consensus
  import opened Rounds
  import opened ClaimLedger

  // ----- round numbers -----

  /** Every processed or published round has a number the peer has reached; its own numbers ascend. */
  ghost predicate Fresh(s: Ledger) {
    && (forall r :: r in s.processed ==> r <= s.roundId)
    && (forall k :: 0 <= k < |s.outbox| ==> s.outbox[k].id <= s.roundId)
    && (forall j, k :: 0 <= j < k < |s.outbox| ==> s.outbox[j].id < s.outbox[k].id)
  }

  /** Some published round releases the drone. */
  ghost predicate EverReleased(outbox: seq<RoundPayload>, id: DroneId) {
    exists k :: 0 <= k < |outbox| && outbox[k].releasedBy == Some(id)
  }

  /** A drone is on record as released exactly when a published round released it, and no two rounds do. */
  ghost predicate ReleasedOnce(s: Ledger) {
    && (forall id :: id in s.released <==> EverReleased(s.outbox, id))
    && (forall j, k :: 0 <= j < k < |s.outbox| && s.outbox[j].releasedBy.Some? ==>
          s.outbox[j].releasedBy != s.outbox[k].releasedBy)
  }

  ghost predicate LedgerInv(s: Ledger) {
    Agree(s.index) && Fresh(s) && ReleasedOnce(s)
  }

  /** Hearing a round is without effect exactly when its number is remembered, whatever it says: a
      repeated round, but also another peer's round of the same number. */
  lemma IgnoredExactly(s: Ledger, round: RoundPayload, me: DroneId, nowMs: int)
    ensures ApplyRound(s, round, me, nowMs) == s <==> round.id in s.processed
  {
    assert round.id in Effect(s, round, me, nowMs).processed;
  }

  lemma SameNumberIgnored(s: Ledger, round: RoundPayload, other: RoundPayload, me: DroneId, nowMs: int, laterMs: int)
    requires other.id == round.id
    ensures ApplyRound(ApplyRound(s, round, me, nowMs), other, me, laterMs) == ApplyRound(s, round, me, nowMs)
  {}

  /** The peer's own rounds are new to it, so they always take effect. */
  lemma OwnRoundApplied(s: Ledger, round: RoundPayload, me: DroneId, nowMs: int)
    requires Fresh(s) && round.id == s.roundId + 1
    ensures Announce(s, round, me, nowMs)
            == Effect(s.(roundId := round.id, outbox := s.outbox + [round]), round, me, nowMs)
  {
    assert round.id !in s.processed;
  }

  lemma ReleasesMore(outbox: seq<RoundPayload>, round: RoundPayload, id: DroneId)
    ensures EverReleased(outbox + [round], id) <==> EverReleased(outbox, id) || round.releasedBy == Some(id)
  {
    var all := outbox + [round];
    if EverReleased(outbox, id) {
      var k :| 0 <= k < |outbox| && outbox[k].releasedBy == Some(id);
      assert all[k].releasedBy == Some(id);
    }
    if round.releasedBy == Some(id) {
      assert all[|outbox|].releasedBy == Some(id);
    }
  }

  lemma ApplyKeeps(s: Ledger, round: RoundPayload, me: DroneId, nowMs: int)
    requires LedgerInv(s)
    ensures LedgerInv(ApplyRound(s, round, me, nowMs))
    ensures round.id !in s.processed ==> forall id :: id in ApplyRound(s, round, me, nowMs).index.pending ==>
      ApplyRound(s, round, me, nowMs).index.pending[id].cell != round.cell
  {
    hide AssignAll, Evicted, Agree;
    EvictedAgrees(s.index, round.cell);
  }

  lemma AnnounceKeeps(s: Ledger, round: RoundPayload, me: DroneId, nowMs: int)
    requires LedgerInv(s) && round.id == s.roundId + 1
    requires round.releasedBy.Some? ==> round.releasedBy.value !in s.released
    ensures Agree(Announce(s, round, me, nowMs).index) && Fresh(Announce(s, round, me, nowMs))
    ensures var released := if round.releasedBy.Some? then {round.releasedBy.value} else {};
      ReleasedOnce(Announce(s, round, me, nowMs).(released := s.released + released))
  {
    hide AssignAll, Evicted, Agree, EverReleased;
    EvictedAgrees(s.index, round.cell);
    forall id
      ensures EverReleased(s.outbox + [round], id) <==> EverReleased(s.outbox, id) || round.releasedBy == Some(id)
    {
      ReleasesMore(s.outbox, round, id);
    }
    forall k | 0 <= k < |s.outbox| && s.outbox[k].releasedBy.Some? ensures s.outbox[k].releasedBy != round.releasedBy {
      RecordedRelease(s, k);
    }
  }

  lemma RecordedRelease(s: Ledger, k: nat)
    requires ReleasedOnce(s) && k < |s.outbox| && s.outbox[k].releasedBy.Some?
    ensures s.outbox[k].releasedBy.value in s.released
  {
    assert EverReleased(s.outbox, s.outbox[k].releasedBy.value);
  }

  lemma SettleOneKeeps(s: Ledger, group: seq<ClaimRequest>, view: MapView, me: DroneId, nowMs: int)
    requires LedgerInv(s)
    ensures LedgerInv(SettleOne(s, group, view, me, nowMs))
  {
    hide Announce, Agree, ResolveConflict;
    var decision := ResolveConflict(group, view, Claimed(s.drones));
    if decision.Some? {
      AnnounceKeeps(s, RoundPayload(s.roundId + 1, decision.value.cell, decision.value.assignments, None), me, nowMs);
      AnnounceFrame(s, RoundPayload(s.roundId + 1, decision.value.cell, decision.value.assignments, None), me, nowMs);
    }
  }

  lemma AnnounceFrame(s: Ledger, round: RoundPayload, me: DroneId, nowMs: int)
    ensures Announce(s, round, me, nowMs).released == s.released
    ensures Announce(s, round, me, nowMs).resolved == s.resolved
    ensures Announce(s, round, me, nowMs).processed == s.processed + {round.id}
    ensures Announce(s, round, me, nowMs).index.pending.Keys <= s.index.pending.Keys
    ensures forall id :: id in Announce(s, round, me, nowMs).index.pending ==>
      Announce(s, round, me, nowMs).index.pending[id] == s.index.pending[id]
  {
    hide AssignAll;
    assert round.id in s.processed ==> s.processed + {round.id} == s.processed;
  }

  lemma {:induction false} SettleAllKeeps(s: Ledger, groups: seq<seq<ClaimRequest>>, view: MapView, me: DroneId,
                                          nowMs: int)
    requires LedgerInv(s)
    ensures LedgerInv(SettleAll(s, groups, view, me, nowMs))
    decreases |groups|
  {
    hide SettleOne, LedgerInv;
    if groups != [] {
      SettleAllKeeps(s, groups[..|groups| - 1], view, me, nowMs);
      SettleOneKeeps(SettleAll(s, groups[..|groups| - 1], view, me, nowMs), groups[|groups| - 1], view, me, nowMs);
    }
  }

  lemma SilenceOneKeeps(s: Ledger, id: DroneId, me: DroneId, nowMs: int)
    requires LedgerInv(s)
    ensures LedgerInv(SilenceOne(s, id, me, nowMs))
  {
    hide Announce, Agree;
    if id != me {
      var d := Known(s.drones, id);
      var met := s.(drones := s.drones[id := d]);
      if d.alive && id !in s.released && d.claimed.Some? {
        AnnounceKeeps(met, RoundPayload(s.roundId + 1, d.claimed.value, [], Some(id)), me, nowMs);
      }
    }
  }

  lemma {:induction false} SilenceAllKeeps(s: Ledger, late: seq<DroneId>, me: DroneId, nowMs: int)
    requires LedgerInv(s)
    ensures LedgerInv(SilenceAll(s, late, me, nowMs))
    decreases |late|
  {
    hide SilenceOne, LedgerInv;
    if late != [] {
      SilenceAllKeeps(s, late[..|late| - 1], me, nowMs);
      SilenceOneKeeps(SilenceAll(s, late[..|late| - 1], me, nowMs), late[|late| - 1], me, nowMs);
    }
  }

  lemma StepKeeps(s: Ledger, e: Event, me: DroneId)
    requires LedgerInv(s)
    ensures LedgerInv(After(s, e, me))
  {
    hide SettleAll, SilenceAll, ApplyRound, Agree, Filed, Dropped, Largest;
    match e
    case BeatHeard(_, _, _) =>
    case OwnBeat(_) =>
    case Rejoined(_, _) =>
    case StateHeard(_) =>
    case OwnDroneChanged(_) =>
    case SilenceSurveyed(_, _) =>
    case ClaimHeard(claim) => FiledAgrees(s.index, claim);
    case ClaimMade(claim) => FiledAgrees(s.index, claim);
    case RoundHeard(round, nowMs) => ApplyKeeps(s, round, me, nowMs);
    case SilenceFound(late, nowMs, _) => SilenceAllKeeps(s.(silent := Elements(late)), late, me, nowMs);
    case ClaimsResolved(groups, view, delayMs, nowMs) =>
      DroppedAgrees(s.index, Expired(s.index, delayMs, nowMs));
      var live := Unexpired(s, delayMs, nowMs);
      SettleAllKeeps(live, groups, view, me, nowMs);
      var settled := SettleAll(live, groups, view, me, nowMs);
      DroppedAgrees(settled.index, settled.index.pending.Keys * settled.resolved);
  }

  /** Over every run the indexes agree, round numbers are fresh, and no drone is released twice. */
  lemma {:induction false} RunKeepsLedger(events: seq<Event>, me: DroneId)
    ensures LedgerInv(RunFrom(Start(), events, me))
    decreases |events|
  {
    hide After;
    if events != [] {
      RunKeepsLedger(events[..|events| - 1], me);
      StepKeeps(RunFrom(Start(), events[..|events| - 1], me), events[|events| - 1], me);
    }
  }

  // ----- releases -----

  /** A silent drone's cell is released by a round of its own: it is another drone, on record as alive and
      holding a cell, and it was never released before. */
  predicate ReleaseDue(s: Ledger, id: DroneId, me: DroneId) {
    id != me && Known(s.drones, id).alive && Known(s.drones, id).claimed.Some? && id !in s.released
  }

  lemma SilenceOneReleases(s: Ledger, id: DroneId, me: DroneId, nowMs: int)
    ensures SilenceOne(s, id, me, nowMs).outbox
            == if ReleaseDue(s, id, me)
               then s.outbox + [RoundPayload(s.roundId + 1, Known(s.drones, id).claimed.value, [], Some(id))]
               else s.outbox
    ensures SilenceOne(s, id, me, nowMs).released == s.released + (if ReleaseDue(s, id, me) then {id} else {})
    ensures forall other :: other != id ==> Known(SilenceOne(s, id, me, nowMs).drones, other) == Known(s.drones, other)
    ensures id != me ==> !Known(SilenceOne(s, id, me, nowMs).drones, id).alive
  {
    hide Evicted;
    var d := Known(s.drones, id);
    assert s.released + {} == s.released;
    if ReleaseDue(s, id, me) {
      AnnounceFrame(s.(drones := s.drones[id := d]), RoundPayload(s.roundId + 1, d.claimed.value, [], Some(id)), me,
                    nowMs);
    }
  }

  /** What a search for silent drones publishes: a release for each of them that is due one, and for no other. */
  lemma {:induction false} SilenceReleasesExactly(s: Ledger, late: seq<DroneId>, me: DroneId, nowMs: int, id: DroneId)
    requires Distinct(late)
    ensures EverReleased(SilenceAll(s, late, me, nowMs).outbox, id)
            <==> EverReleased(s.outbox, id) || (id in late && ReleaseDue(s, id, me))
    ensures id in SilenceAll(s, late, me, nowMs).released <==> id in s.released || (id in late && ReleaseDue(s, id, me))
    ensures id !in late ==> Known(SilenceAll(s, late, me, nowMs).drones, id) == Known(s.drones, id)
    ensures id in late && id != me ==> !Known(SilenceAll(s, late, me, nowMs).drones, id).alive
    decreases |late|
  {
    hide SilenceOne, EverReleased, Known;
    if late != [] {
      var front, last := late[..|late| - 1], late[|late| - 1];
      assert id in late <==> id in front || id == last;
      assert last !in front;
      var before := SilenceAll(s, front, me, nowMs);
      SilenceReleasesExactly(s, front, me, nowMs, id);
      SilenceReleasesExactly(s, front, me, nowMs, last);
      SilenceOneReleases(before, last, me, nowMs);
      if ReleaseDue(before, last, me) {
        ReleasesMore(before.outbox,
                     RoundPayload(before.roundId + 1, Known(before.drones, last).claimed.value, [], Some(last)), id);
      }
    }
  }

  /** Over every run: a drone found silent is released by a new round exactly when it is another one, alive
      on record, holds a cell, and no round published in the run has released it yet. */
  lemma ReleasedOnceExactly(events: seq<Event>, me: DroneId, late: seq<DroneId>, nowMs: int, timeoutMs: int,
                            id: DroneId)
    requires Possible(RunFrom(Start(), events, me), SilenceFound(late, nowMs, timeoutMs)) && id in late
    ensures var s := RunFrom(Start(), events, me);
      var t := After(s, SilenceFound(late, nowMs, timeoutMs), me);
      !EverReleased(s.outbox, id) && EverReleased(t.outbox, id)
      <==> id != me && Known(s.drones, id).alive && Known(s.drones, id).claimed.Some? && !EverReleased(s.outbox, id)
  {
    hide SilenceAll, EverReleased;
    RunKeepsLedger(events, me);
    var s := RunFrom(Start(), events, me);
    SilenceReleasesExactly(s.(silent := Elements(late)), late, me, nowMs, id);
  }

  // ----- when claims are resolved -----

  lemma SettleOneFrame(s: Ledger, group: seq<ClaimRequest>, view: MapView, me: DroneId, nowMs: int)
    requires group != []
    ensures SettleOne(s, group, view, me, nowMs).resolved == s.resolved + IdsOf(group)
    ensures SettleOne(s, group, view, me, nowMs).index.pending.Keys <= s.index.pending.Keys
    ensures forall id :: id in SettleOne(s, group, view, me, nowMs).index.pending ==>
      SettleOne(s, group, view, me, nowMs).index.pending[id] == s.index.pending[id]
    ensures s.processed <= SettleOne(s, group, view, me, nowMs).processed
  {
    hide Announce, ResolveConflict, IdsOf;
    ResolveShape(group, view, Claimed(s.drones));
    var decision := ResolveConflict(group, view, Claimed(s.drones));
    AnnounceFrame(s, RoundPayload(s.roundId + 1, decision.value.cell, decision.value.assignments, None), me, nowMs);
  }

  ghost function SentIds(groups: seq<seq<ClaimRequest>>): set<ClaimId> {
    if groups == [] then {} else SentIds(groups[..|groups| - 1]) + IdsOf(groups[|groups| - 1])
  }

  lemma {:induction false} SentExactly(groups: seq<seq<ClaimRequest>>, id: ClaimId)
    ensures id in SentIds(groups) <==>
      exists g, k :: 0 <= g < |groups| && 0 <= k < |groups[g]| && groups[g][k].claimId == id
    decreases |groups|
  {
    if groups != [] {
      var front, last := groups[..|groups| - 1], groups[|groups| - 1];
      SentExactly(front, id);
      assert forall g :: 0 <= g < |front| ==> front[g] == groups[g];
      if id in IdsOf(last) {
        var k :| 0 <= k < |last| && last[k].claimId == id;
        assert groups[|groups| - 1][k].claimId == id;
      }
    }
  }

  lemma {:induction false} SettleAllFrame(s: Ledger, groups: seq<seq<ClaimRequest>>, view: MapView, me: DroneId,
                                          nowMs: int)
    requires forall g :: 0 <= g < |groups| ==> groups[g] != []
    ensures SettleAll(s, groups, view, me, nowMs).resolved == s.resolved + SentIds(groups)
    ensures SettleAll(s, groups, view, me, nowMs).index.pending.Keys <= s.index.pending.Keys
    ensures forall id :: id in SettleAll(s, groups, view, me, nowMs).index.pending ==>
      SettleAll(s, groups, view, me, nowMs).index.pending[id] == s.index.pending[id]
    ensures s.processed <= SettleAll(s, groups, view, me, nowMs).processed
    decreases |groups|
  {
    hide SettleOne, IdsOf;
    if groups != [] {
      var front := groups[..|groups| - 1];
      SettleAllFrame(s, front, view, me, nowMs);
      SettleOneFrame(SettleAll(s, front, view, me, nowMs), groups[|groups| - 1], view, me, nowMs);
    }
  }

  /** Every claim sent to resolution is between one and two delays old and was not resolved before, and
      afterwards no claim of that age is left waiting. */
  lemma ResolvedOnTime(s: Ledger, groups: seq<seq<ClaimRequest>>, view: MapView, delayMs: int, nowMs: int, me: DroneId)
    requires Agree(s.index) && Possible(s, ClaimsResolved(groups, view, delayMs, nowMs))
    ensures forall g, k :: 0 <= g < |groups| && 0 <= k < |groups[g]| ==>
      delayMs <= nowMs - groups[g][k].timestampMs <= 2 * delayMs && groups[g][k].claimId !in s.resolved
    ensures var t := After(s, ClaimsResolved(groups, view, delayMs, nowMs), me);
      forall id :: id in t.index.pending ==>
        nowMs - t.index.pending[id].timestampMs < delayMs && id !in t.resolved
  {
    hide SettleAll, Unlisted;
    var live := Unexpired(s, delayMs, nowMs);
    var mature := Mature(live, delayMs, nowMs);
    DroppedAgrees(s.index, Expired(s.index, delayMs, nowMs));
    forall g, k | 0 <= g < |groups| && 0 <= k < |groups[g]|
      ensures delayMs <= nowMs - groups[g][k].timestampMs <= 2 * delayMs && groups[g][k].claimId !in s.resolved
    {
      assert groups[g][k] in groups[g];
      assert groups[g][k] in mature;
    }
    SettleAllFrame(live, groups, view, me, nowMs);
    var settled := SettleAll(live, groups, view, me, nowMs);
    var t := After(s, ClaimsResolved(groups, view, delayMs, nowMs), me);
    forall id | id in t.index.pending ensures nowMs - t.index.pending[id].timestampMs < delayMs && id !in t.resolved {
      assert id in live.index.pending && id !in settled.resolved;
      var claim := live.index.pending[id];
      if claim.timestampMs <= nowMs - delayMs {
        assert claim in mature;
        var g :| 0 <= g < |groups| && claim in groups[g];
        var k :| 0 <= k < |groups[g]| && groups[g][k] == claim;
        SentExactly(groups, id);
        assert false;
      }
    }
  }

  // ----- what is never done twice -----

  /** The ids of all claims sent to resolution in a run. */
  ghost function SentInRun(events: seq<Event>): set<ClaimId> {
    if events == [] then {}
    else
      var e := events[|events| - 1];
      SentInRun(events[..|events| - 1]) + (if e.ClaimsResolved? then SentIds(e.groups) else {})
  }

  /** The rounds an event leaves processed, before the memory is trimmed. */
  ghost function ProcessedBy(s: Ledger, e: Event, me: DroneId): set<int> {
    if e.ClaimsResolved? then
      SettleAll(Unexpired(s, e.delayMs, e.nowMs), e.groups, e.view, me, e.nowMs).processed
    else After(s, e, me).processed
  }

  /** The numbers of all rounds applied in a run. */
  ghost function AppliedInRun(events: seq<Event>, me: DroneId): set<int> {
    if events == [] then {}
    else
      var before := events[..|events| - 1];
      AppliedInRun(before, me) + ProcessedBy(RunFrom(Start(), before, me), events[|events| - 1], me)
  }

  lemma {:induction false} SilenceFrame(s: Ledger, late: seq<DroneId>, me: DroneId, nowMs: int)
    ensures SilenceAll(s, late, me, nowMs).resolved == s.resolved
    ensures s.processed <= SilenceAll(s, late, me, nowMs).processed
    decreases |late|
  {
    hide Announce;
    if late != [] {
      SilenceFrame(s, late[..|late| - 1], me, nowMs);
      var before, id := SilenceAll(s, late[..|late| - 1], me, nowMs), late[|late| - 1];
      var d := Known(before.drones, id);
      if d.claimed.Some? {
        AnnounceFrame(before.(drones := before.drones[id := d]),
                      RoundPayload(before.roundId + 1, d.claimed.value, [], Some(id)), me, nowMs);
      }
    }
  }

  lemma StepRemembers(s: Ledger, e: Event, me: DroneId, sent: set<ClaimId>, applied: set<int>)
    requires Possible(s, e)
    requires Remembers(sent, s.resolved, MAX_TRACKED) && Remembers(applied, s.processed, MAX_TRACKED)
    ensures var more := if e.ClaimsResolved? then SentIds(e.groups) else {};
      Remembers(sent + more, After(s, e, me).resolved, MAX_TRACKED)
    ensures Remembers(applied + ProcessedBy(s, e, me), After(s, e, me).processed, MAX_TRACKED)
  {
    hide SettleAll, SilenceAll, Remembers, Largest, Dropped, Mature, Effect, Filed;
    var now := ProcessedBy(s, e, me);
    var none: set<int> := {};
    assert sent + none == sent;
    match e
    case ClaimsResolved(groups, view, delayMs, nowMs) =>
      SettleAllFrame(Unexpired(s, delayMs, nowMs), groups, view, me, nowMs);
      RemembersMore(applied, s.processed, now, MAX_TRACKED);
      assert s.processed + now == now;
      RemembersTrimmed(applied + now, now, MAX_TRACKED);
      RemembersMore(sent, s.resolved, SentIds(groups), MAX_TRACKED);
      RemembersTrimmed(sent + SentIds(groups), s.resolved + SentIds(groups), MAX_TRACKED);
    case _ =>
      OtherEventsGrow(s, e, me);
      RemembersMore(applied, s.processed, now, MAX_TRACKED);
      assert s.processed + now == now;
  }

  lemma OtherEventsGrow(s: Ledger, e: Event, me: DroneId)
    requires !e.ClaimsResolved?
    ensures After(s, e, me).resolved == s.resolved && s.processed <= After(s, e, me).processed
  {
    hide SilenceAll, Effect, Filed, Evicted;
    match e
    case RoundHeard(round, nowMs) => RoundGrows(s, round, me, nowMs);
    case SilenceFound(late, nowMs, _) => SilenceFrame(s.(silent := Elements(late)), late, me, nowMs);
    case _ =>
  }

  lemma RoundGrows(s: Ledger, round: RoundPayload, me: DroneId, nowMs: int)
    ensures s.processed <= ApplyRound(s, round, me, nowMs).processed
    ensures ApplyRound(s, round, me, nowMs).resolved == s.resolved
  {
    hide AssignAll, Evicted;
  }

  lemma {:induction false} RunRemembers(events: seq<Event>, me: DroneId)
    requires AllPossible(Start(), events, me)
    ensures Remembers(SentInRun(events), RunFrom(Start(), events, me).resolved, MAX_TRACKED)
    ensures Remembers(AppliedInRun(events, me), RunFrom(Start(), events, me).processed, MAX_TRACKED)
    decreases |events|
  {
    hide After, Possible, ProcessedBy;
    if events != [] {
      var before, e := events[..|events| - 1], events[|events| - 1];
      RunRemembers(before, me);
      StepRemembers(RunFrom(Start(), before, me), e, me, SentInRun(before), AppliedInRun(before, me));
    }
  }

  /** A claim once sent to resolution is not sent again, nor taken back into the waiting claims when it
      arrives late, before the peer remembers 500 resolved claims with greater ids. */
  lemma ClaimHeardOnce(events: seq<Event>, me: DroneId, claim: ClaimRequest)
    requires AllPossible(Start(), events, me) && claim.claimId in SentInRun(events)
    requires |Above(RunFrom(Start(), events, me).resolved, claim.claimId)| < MAX_TRACKED
    ensures var s := RunFrom(Start(), events, me);
      && After(s, ClaimHeard(claim), me) == s
      && forall e :: Possible(s, e) && e.ClaimsResolved? ==> claim.claimId !in SentIds(e.groups)
  {
    hide After, SettleAll;
    RunRemembers(events, me);
    RunKeepsLedger(events, me);
    var s := RunFrom(Start(), events, me);
    assert claim.claimId in s.resolved;
    LateCopyIgnored(s, claim, me);
    forall e | Possible(s, e) && e.ClaimsResolved? ensures claim.claimId !in SentIds(e.groups) {
      ResolvedOnTime(s, e.groups, e.view, e.delayMs, e.nowMs, me);
      SentExactly(e.groups, claim.claimId);
    }
  }

  lemma LateCopyIgnored(s: Ledger, claim: ClaimRequest, me: DroneId)
    requires claim.claimId in s.resolved
    ensures After(s, ClaimHeard(claim), me) == s
  {}

  /** A round once applied is not applied again before 500 rounds with greater numbers are remembered. */
  lemma RoundAppliedOnce(events: seq<Event>, me: DroneId, round: RoundPayload, nowMs: int)
    requires AllPossible(Start(), events, me) && round.id in AppliedInRun(events, me)
    requires |Above(RunFrom(Start(), events, me).processed, round.id)| < MAX_TRACKED
    ensures After(RunFrom(Start(), events, me), RoundHeard(round, nowMs), me) == RunFrom(Start(), events, me)
  {
    hide After;
    RunRemembers(events, me);
    RepeatedRoundIgnored(RunFrom(Start(), events, me), round, me, nowMs);
  }

  lemma RepeatedRoundIgnored(s: Ledger, round: RoundPayload, me: DroneId, nowMs: int)
    requires round.id in s.processed
    ensures After(s, RoundHeard(round, nowMs), me) == s
  {}
}
