/** Vote rounds: a contested auction is put to the peers, whose votes may be lost, late, repeated or false. */
module Consensus {
  import opened Basics
  import opened Sorting
  import opened Auction
  import opened Windows

  datatype ContestId = ContestId(round: int, cell: Coord, nowMs: int)

  datatype VoteRecord = VoteRecord(voterId: DroneId, choice: Choice, contestId: ContestId, timestampMs: int, nonce: int)

  datatype RoundResult = RoundResult(roundId: int, contestId: ContestId, decision: AuctionDecision,
                                     votes: seq<VoteRecord>)

  /** The errors: no claims given, no peer to initiate the round, no vote received. */
  datatype Outcome = Decided(round: RoundResult) | NoClaims | NoPeers | NoVotes(contestId: ContestId)

  // ----- counting votes -----

  function Count(votes: seq<VoteRecord>, choice: Choice): nat {
    if votes == [] then 0
    else (if votes[0].choice == choice then 1 else 0) + Count(votes[1..], choice)
  }

  /** The first of the most frequent choices among the first n votes, counted over all votes. */
  function TopChoice(votes: seq<VoteRecord>, n: nat): (top: Choice)
    requires 0 < n <= |votes|
    ensures exists i :: 0 <= i < n && votes[i].choice == top
    ensures forall i :: 0 <= i < n ==> Count(votes, votes[i].choice) <= Count(votes, top)
  {
    if n == 1 then votes[0].choice
    else
      var top := TopChoice(votes, n - 1);
      if Count(votes, votes[n - 1].choice) > Count(votes, top) then votes[n - 1].choice else top
  }

  /** The most frequent choice, or the fallback when there is none or the first place is shared. */
  function MajorityChoice(votes: seq<VoteRecord>, fallback: Choice): Choice {
    if votes == [] then fallback
    else
      var top := TopChoice(votes, |votes|);
      if exists i :: 0 <= i < |votes| && votes[i].choice != top && Count(votes, votes[i].choice) == Count(votes, top)
      then fallback else top
  }

  ghost predicate Leads(votes: seq<VoteRecord>, choice: Choice) {
    forall other :: other != choice ==> Count(votes, other) < Count(votes, choice)
  }

  lemma {:induction false} CountPositive(votes: seq<VoteRecord>, choice: Choice)
    ensures Count(votes, choice) > 0 <==> exists i :: 0 <= i < |votes| && votes[i].choice == choice
  {
    if votes != [] {
      CountPositive(votes[1..], choice);
      if i :| 0 <= i < |votes| && votes[i].choice == choice {
        assert i > 0 ==> votes[1..][i - 1].choice == choice;
      }
      if Count(votes[1..], choice) > 0 {
        var i :| 0 <= i < |votes[1..]| && votes[1..][i].choice == choice;
        assert votes[i + 1].choice == choice;
      }
    }
  }

  /** A choice strictly ahead of all others is the result; without one the fallback is. */
  lemma MajorityIsPlurality(votes: seq<VoteRecord>, fallback: Choice, choice: Choice)
    ensures Leads(votes, choice) ==> MajorityChoice(votes, fallback) == choice
    ensures (forall c :: !Leads(votes, c)) ==> MajorityChoice(votes, fallback) == fallback
  {
    if votes == [] {
      var other := if choice == SplitVote then DroneVote(0) else SplitVote;
      assert Count(votes, other) == 0;
    } else {
      var top := TopChoice(votes, |votes|);
      forall c ensures Count(votes, c) <= Count(votes, top) {
        CountPositive(votes, c);
      }
      assert Leads(votes, choice) ==> top == choice;
      if !Leads(votes, top) {
        var other :| other != top && Count(votes, other) >= Count(votes, top);
        CountPositive(votes, top);
        CountPositive(votes, other);
        var i :| 0 <= i < |votes| && votes[i].choice == other;
      }
    }
  }

  /** Every vote counts once, for its own choice. */
  lemma {:induction false} CountAppend(votes: seq<VoteRecord>, v: VoteRecord, choice: Choice)
    ensures Count([], choice) == 0
    ensures Count(votes + [v], choice) == Count(votes, choice) + (if v.choice == choice then 1 else 0)
    decreases |votes|
  {
    if votes == [] {
      assert [] + [v] == [v] && [v][1..] == [];
    } else {
      assert (votes + [v])[1..] == votes[1..] + [v];
      CountAppend(votes[1..], v, choice);
    }
  }

  lemma {:induction false} TwoChoices(votes: seq<VoteRecord>, a: Choice, b: Choice)
    requires a != b
    ensures Count(votes, a) + Count(votes, b) <= |votes|
  {
    if votes != [] {
      TwoChoices(votes[1..], a, b);
    }
  }

  // ----- from votes to a decision -----

  /** The lead of the decision as the majority sees it; the set of assignments is never changed. */
  function Override(decision: AuctionDecision, winning: Choice): AuctionDecision
    requires decision.assignments != []
  {
    if winning == LeadChoice(decision) || winning == SplitVote then decision
    else
      var i := IndexOf(decision.assignments, winning);
      if i < |decision.assignments| then
        AuctionDecision(decision.cell,
                        [decision.assignments[i]] + OthersThan(decision.assignments, decision.assignments[i].droneId),
                        MajorityVote(decision.assignments[i].droneId))
      else decision
  }

  /** The first assignment of the drone voted for, or the length of the list. */
  function IndexOf(assignments: seq<ZoneAssignment>, winning: Choice): (i: nat)
    ensures i <= |assignments|
    ensures i < |assignments| ==> winning == DroneVote(assignments[i].droneId)
    ensures forall k :: 0 <= k < i ==> winning != DroneVote(assignments[k].droneId)
  {
    if assignments == [] || winning == DroneVote(assignments[0].droneId) then 0
    else 1 + IndexOf(assignments[1..], winning)
  }

  function OthersThan(assignments: seq<ZoneAssignment>, id: DroneId): seq<ZoneAssignment> {
    if assignments == [] then []
    else if assignments[0].droneId == id then OthersThan(assignments[1..], id)
    else [assignments[0]] + OthersThan(assignments[1..], id)
  }

  /** What a round decides from the votes it received. */
  function Decide(decision: AuctionDecision, received: seq<VoteRecord>, quorum: nat): AuctionDecision
    requires decision.assignments != []
  {
    if |received| < quorum then decision
    else Override(decision, MajorityChoice(received, LeadChoice(decision)))
  }

  /** Votes that agree with the lead change nothing, whoever's votes arrive. */
  lemma UnanimousVotesConfirm(decision: AuctionDecision, received: seq<VoteRecord>, quorum: nat)
    requires decision.assignments != []
    requires forall i :: 0 <= i < |received| ==> received[i].choice == LeadChoice(decision)
    ensures Decide(decision, received, quorum) == decision
  {}

  /** A minority of false votes cannot change the decision. */
  lemma MinorityCannotOverride(decision: AuctionDecision, received: seq<VoteRecord>, quorum: nat)
    requires decision.assignments != []
    requires 2 * Count(received, LeadChoice(decision)) > |received|
    ensures Decide(decision, received, quorum) == decision
  {
    var lead := LeadChoice(decision);
    forall other | other != lead ensures Count(received, other) < Count(received, lead) {
      TwoChoices(received, lead, other);
    }
    MajorityIsPlurality(received, lead, lead);
  }

  ghost predicate DistinctAssignees(assignments: seq<ZoneAssignment>) {
    forall i, j :: 0 <= i < j < |assignments| ==> assignments[i].droneId != assignments[j].droneId
  }

  lemma {:induction false} OthersAll(assignments: seq<ZoneAssignment>, id: DroneId)
    requires forall k :: 0 <= k < |assignments| ==> assignments[k].droneId != id
    ensures OthersThan(assignments, id) == assignments
  {
    if assignments != [] {
      OthersAll(assignments[1..], id);
    }
  }

  lemma {:induction false} OthersSplit(assignments: seq<ZoneAssignment>, i: nat)
    requires i < |assignments| && DistinctAssignees(assignments)
    ensures OthersThan(assignments, assignments[i].droneId) == assignments[..i] + assignments[i + 1..]
    decreases i
  {
    var id := assignments[i].droneId;
    if i == 0 {
      OthersAll(assignments[1..], id);
    } else {
      OthersSplit(assignments[1..], i - 1);
      assert assignments[1..][i - 1] == assignments[i];
      assert assignments[1..][..i - 1] == assignments[1..i];
      assert assignments[1..][i..] == assignments[i + 1..];
      assert assignments[..i] == [assignments[0]] + assignments[1..i];
    }
  }

  /** Whatever the votes, true or false, every drone keeps exactly the assignment the auction gave it. */
  lemma VotesKeepAssignments(decision: AuctionDecision, received: seq<VoteRecord>, quorum: nat)
    requires decision.assignments != [] && DistinctAssignees(decision.assignments)
    ensures Decide(decision, received, quorum).cell == decision.cell
    ensures multiset(Decide(decision, received, quorum).assignments) == multiset(decision.assignments)
  {
    var winning := MajorityChoice(received, LeadChoice(decision));
    var i := IndexOf(decision.assignments, winning);
    if i < |decision.assignments| {
      OthersSplit(decision.assignments, i);
      var all := decision.assignments;
      assert all == all[..i] + [all[i]] + all[i + 1..];
    }
  }

  /** A drone strictly ahead of all other choices comes first in the list; the order of the others stays. */
  lemma MajorityPutFirst(decision: AuctionDecision, received: seq<VoteRecord>, quorum: nat, k: nat)
    requires DistinctAssignees(decision.assignments) && |received| >= quorum && k < |decision.assignments|
    requires Leads(received, DroneVote(decision.assignments[k].droneId))
    requires LeadChoice(decision) != DroneVote(decision.assignments[k].droneId)
    ensures var all := decision.assignments;
      Decide(decision, received, quorum).assignments == [all[k]] + all[..k] + all[k + 1..]
  {
    var all := decision.assignments;
    var winning := DroneVote(all[k].droneId);
    MajorityIsPlurality(received, LeadChoice(decision), winning);
    var i := IndexOf(all, winning);
    assert i == k;
    OthersSplit(all, k);
  }

  /** In all other cases the decision stays as the auction made it. */
  lemma DecisionKept(decision: AuctionDecision, received: seq<VoteRecord>, quorum: nat)
    requires decision.assignments != []
    requires |received| < quorum
             || forall k :: 0 <= k < |decision.assignments| ==>
                  (Leads(received, DroneVote(decision.assignments[k].droneId)) ==>
                    LeadChoice(decision) == DroneVote(decision.assignments[k].droneId))
    ensures Decide(decision, received, quorum) == decision
  {
    if |received| >= quorum {
      var lead := LeadChoice(decision);
      var winning := MajorityChoice(received, lead);
      if winning != lead {
        var i := IndexOf(decision.assignments, winning);
        if !Leads(received, winning) {
          forall c ensures !Leads(received, c) {
            MajorityIsPlurality(received, lead, c);
          }
          MajorityIsPlurality(received, lead, winning);
        }
      }
    }
  }

  // ----- honest votes -----

  /** The map a peer votes with: its own, or the initiator's when it has none. */
  function PeerView(maps: map<DroneId, MapView>, view: MapView, peer: DroneId): MapView {
    if peer in maps then maps[peer] else view
  }

  /** The vote a peer casts after running the auction on its own map. */
  function PeerVote(peer: DroneId, claims: seq<ClaimRequest>, maps: map<DroneId, MapView>, view: MapView,
                    claimed: set<Coord>, contestId: ContestId, nowMs: int, nonce: int): VoteRecord
    requires claims != []
  {
    LeadIgnoresMap(claims, view, PeerView(maps, view, peer), claimed, claimed);
    VoteRecord(peer, LeadChoice(ResolveConflict(claims, PeerView(maps, view, peer), claimed).value),
               contestId, nowMs, nonce)
  }

  /** However the peers' maps differ, their votes agree with the initiator's own decision. */
  lemma HonestVotesAgree(peer: DroneId, claims: seq<ClaimRequest>, maps: map<DroneId, MapView>, view: MapView,
                         claimed: set<Coord>, contestId: ContestId, nowMs: int, nonce: int)
    requires claims != []
    ensures var decision := ResolveConflict(claims, view, claimed).value;
      decision.assignments != []
      && PeerVote(peer, claims, maps, view, claimed, contestId, nowMs, nonce).choice == LeadChoice(decision)
  {
    LeadIgnoresMap(claims, view, PeerView(maps, view, peer), claimed, claimed);
  }

  /** A peer votes for the best claim, the earliest, then nearest, then of the smallest id; it votes for a
      split exactly when another claim is as early and as near. */
  lemma VotesForBest(peer: DroneId, claims: seq<ClaimRequest>, maps: map<DroneId, MapView>, view: MapView,
                     claimed: set<Coord>, contestId: ContestId, nowMs: int, nonce: int, a: ClaimRequest)
    requires DistinctDrones(claims) && SameCell(claims) && a in claims
    requires forall c :: c in claims && c != a ==>
      || a.timestampMs < c.timestampMs
      || (a.timestampMs == c.timestampMs && DistSquared(a.position, a.cell) < DistSquared(c.position, c.cell))
      || (a.timestampMs == c.timestampMs && DistSquared(a.position, a.cell) == DistSquared(c.position, c.cell)
          && a.droneId < c.droneId)
    ensures var v := PeerVote(peer, claims, maps, view, claimed, contestId, nowMs, nonce);
      && v.voterId == peer && v.contestId == contestId
      && (v.choice == SplitVote <==> exists b :: b in claims && b != a && b.timestampMs == a.timestampMs
                                               && DistSquared(b.position, b.cell) == DistSquared(a.position, a.cell))
      && (v.choice != SplitVote ==> v.choice == DroneVote(a.droneId))
  {
    hide ResolveConflict, DistSquared;
    var map0 := PeerView(maps, view, peer);
    if |claims| == 1 {
      OnlyClaimant(claims, map0, claimed);
      assert forall b :: b in claims ==> b == claims[0];
    } else {
      BestIsFirst(claims, map0, claimed, a);
      var second := SecondClaim(claims, map0, claimed);
      SplitExactly(claims, map0, claimed, a, second);
      ServedInOrder(claims, map0, claimed, 0, 1, a, second);
      forall b | b in claims && b != a && b.timestampMs == a.timestampMs
                 && DistSquared(b.position, b.cell) == DistSquared(a.position, a.cell)
        ensures second.timestampMs == a.timestampMs
                && DistSquared(second.position, second.cell) == DistSquared(a.position, a.cell)
      {
        SecondBeforeRest(claims, map0, claimed, second, b, a);
      }
    }
  }

  lemma OnlyClaimant(claims: seq<ClaimRequest>, view: MapView, claimed: set<Coord>)
    requires |claims| == 1
    ensures ResolveConflict(claims, view, claimed).Some?
    ensures ResolveConflict(claims, view, claimed).value.assignments
            == [ZoneAssignment(claims[0].droneId, claims[0].cell, Winner, Whole)]
  {}

  lemma BestIsFirst(claims: seq<ClaimRequest>, view: MapView, claimed: set<Coord>, a: ClaimRequest)
    requires DistinctDrones(claims) && a in claims && |claims| > 1
    requires forall c :: c in claims && c != a ==>
      || a.timestampMs < c.timestampMs
      || (a.timestampMs == c.timestampMs && DistSquared(a.position, a.cell) < DistSquared(c.position, c.cell))
      || (a.timestampMs == c.timestampMs && DistSquared(a.position, a.cell) == DistSquared(c.position, c.cell)
          && a.droneId < c.droneId)
    ensures ResolveConflict(claims, view, claimed).Some?
    ensures |ResolveConflict(claims, view, claimed).value.assignments| == |claims|
    ensures ResolveConflict(claims, view, claimed).value.assignments[0].droneId == a.droneId
  {
    hide ResolveConflict, DistSquared;
    EveryClaimantServed(claims, view, claimed, a);
    var assignments := ResolveConflict(claims, view, claimed).value.assignments;
    var i :| 0 <= i < |assignments| && assignments[i].droneId == a.droneId;
    AuctionOutcome(claims, view, claimed);
    if i > 0 {
      var first := ClaimAt(claims, view, claimed, 0);
      ServedInOrder(claims, view, claimed, 0, i, first, a);
    }
  }

  /** The claim that an assignment answers. */
  lemma ClaimAt(claims: seq<ClaimRequest>, view: MapView, claimed: set<Coord>, i: nat) returns (c: ClaimRequest)
    requires i < |claims|
    ensures ResolveConflict(claims, view, claimed).Some?
    ensures |ResolveConflict(claims, view, claimed).value.assignments| == |claims|
    ensures c in claims && c.droneId == ResolveConflict(claims, view, claimed).value.assignments[i].droneId
  {
    hide ResolveConflict, Ranked;
    AssignmentsFollowRanking(claims, view, claimed);
    AuctionOutcome(claims, view, claimed);
    RankedLength(claims);
    c := Ranked(claims)[i];
    RankedElements(claims, c);
    assert DroneIds(ResolveConflict(claims, view, claimed).value.assignments)[i] == Claimants(Ranked(claims))[i];
  }

  lemma SecondClaim(claims: seq<ClaimRequest>, view: MapView, claimed: set<Coord>) returns (c: ClaimRequest)
    requires |claims| > 1
    ensures ResolveConflict(claims, view, claimed).Some?
    ensures |ResolveConflict(claims, view, claimed).value.assignments| == |claims|
    ensures c in claims && c.droneId == ResolveConflict(claims, view, claimed).value.assignments[1].droneId
  {
    hide ResolveConflict;
    c := ClaimAt(claims, view, claimed, 1);
  }

  lemma SecondBeforeRest(claims: seq<ClaimRequest>, view: MapView, claimed: set<Coord>, second: ClaimRequest,
                         b: ClaimRequest, a: ClaimRequest)
    requires DistinctDrones(claims) && |claims| > 1 && a in claims && b in claims && second in claims && b != a
    requires ResolveConflict(claims, view, claimed).Some?
    requires |ResolveConflict(claims, view, claimed).value.assignments| == |claims|
    requires a.droneId == ResolveConflict(claims, view, claimed).value.assignments[0].droneId
    requires second.droneId == ResolveConflict(claims, view, claimed).value.assignments[1].droneId
    requires b.timestampMs == a.timestampMs
    requires DistSquared(b.position, b.cell) == DistSquared(a.position, a.cell)
    ensures second.timestampMs == a.timestampMs
    ensures DistSquared(second.position, second.cell) == DistSquared(a.position, a.cell)
  {
    hide ResolveConflict, DistSquared;
    EveryClaimantServed(claims, view, claimed, b);
    var assignments := ResolveConflict(claims, view, claimed).value.assignments;
    var j :| 0 <= j < |assignments| && assignments[j].droneId == b.droneId;
    SameDrone(claims, a, b);
    ServedInOrder(claims, view, claimed, 0, 1, a, second);
    if j == 1 {
      SameDrone(claims, second, b);
    } else if j > 1 {
      ServedInOrder(claims, view, claimed, 1, j, second, b);
    }
  }

  lemma SameDrone(claims: seq<ClaimRequest>, a: ClaimRequest, b: ClaimRequest)
    requires DistinctDrones(claims) && a in claims && b in claims
    ensures a.droneId == b.droneId ==> a == b
  {}

  // ----- the resolver -----

  type VoteKey = (ContestId, DroneId)

  const SEEN_VOTES_CAP: nat := 2000

  /** The oldest vote leaves when 2000 are there. */
  lemma OldestLeaves(order: seq<VoteKey>, key: VoteKey)
    ensures |order| < 2000 ==> KeepLast(order + [key], SEEN_VOTES_CAP) == order + [key]
    ensures |order| == 2000 ==> KeepLast(order + [key], SEEN_VOTES_CAP) == order[1..] + [key]
  {}

  /** All votes that arrive, poll by poll, up to the deadline. */
  ghost predicate Arrives(polls: seq<seq<VoteRecord>>, v: VoteRecord) {
    exists p, k :: 0 <= p < |polls| && 0 <= k < |polls[p]| && polls[p][k] == v
  }

  ghost predicate VotersAscend(votes: seq<VoteRecord>) {
    forall i, j :: 0 <= i < j < |votes| ==> votes[i].voterId < votes[j].voterId
  }

  // ----- which votes are new -----

  function KeyOf(v: VoteRecord): VoteKey {
    (v.contestId, v.voterId)
  }

  /** The window after some votes: a vote it does not hold enters it, and the oldest entry may leave. */
  function WindowAfter(order: seq<VoteKey>, votes: seq<VoteRecord>): seq<VoteKey> {
    if votes == [] then order
    else
      var w, key := WindowAfter(order, votes[..|votes| - 1]), KeyOf(votes[|votes| - 1]);
      if key in w then w else KeepLast(w + [key], SEEN_VOTES_CAP)
  }

  /** Each voter's last vote among those that the window did not hold when they came. */
  function Gathered(order: seq<VoteKey>, votes: seq<VoteRecord>): map<DroneId, VoteRecord> {
    if votes == [] then map[]
    else
      var front, v := votes[..|votes| - 1], votes[|votes| - 1];
      if KeyOf(v) in WindowAfter(order, front) then Gathered(order, front) else Gathered(order, front)[v.voterId := v]
  }

  function AllVotes(polls: seq<seq<VoteRecord>>): seq<VoteRecord> {
    if polls == [] then [] else AllVotes(polls[..|polls| - 1]) + polls[|polls| - 1]
  }

  /** The new voters heard by the first polls, with their votes. */
  function HeardBy(order: seq<VoteKey>, polls: seq<seq<VoteRecord>>, p: nat): map<DroneId, VoteRecord>
    requires p <= |polls|
  {
    Gathered(order, AllVotes(polls[..p]))
  }

  /** The votes are those heard by the poll that ends the wait: the first with a quorum of new voters, or
      else the last. */
  ghost predicate Collected(order: seq<VoteKey>, polls: seq<seq<VoteRecord>>, quorum: nat, votes: seq<VoteRecord>) {
    exists p: nat :: EndsAt(order, polls, quorum, p) && Lists(votes, HeardBy(order, polls, p))
  }

  ghost predicate EndsAt(order: seq<VoteKey>, polls: seq<seq<VoteRecord>>, quorum: nat, p: nat) {
    && p <= |polls| && (p < |polls| ==> |HeardBy(order, polls, p)| >= quorum)
    && forall q: nat :: q < p ==> |HeardBy(order, polls, q)| < quorum
  }

  ghost predicate Lists(votes: seq<VoteRecord>, heard: map<DroneId, VoteRecord>) {
    && VotersAscend(votes) && |votes| == |heard|
    && (forall i :: 0 <= i < |votes| ==> votes[i].voterId in heard && votes[i] == heard[votes[i].voterId])
    && forall id :: id in heard ==> exists i :: 0 <= i < |votes| && votes[i].voterId == id
  }

  lemma {:induction false} ArrivesSomewhere(polls: seq<seq<VoteRecord>>, v: VoteRecord)
    ensures Arrives(polls, v) <==> v in AllVotes(polls)
    decreases |polls|
  {
    if polls != [] {
      var front, last := polls[..|polls| - 1], polls[|polls| - 1];
      ArrivesSomewhere(front, v);
      if Arrives(front, v) {
        var p, k :| 0 <= p < |front| && 0 <= k < |front[p]| && front[p][k] == v;
        assert polls[p][k] == v;
      }
      if v in last {
        var k :| 0 <= k < |last| && last[k] == v;
        assert polls[|polls| - 1][k] == v;
      }
      if Arrives(polls, v) {
        var p, k :| 0 <= p < |polls| && 0 <= k < |polls[p]| && polls[p][k] == v;
        assert p < |front| ==> front[p][k] == v;
      }
    }
  }

  lemma {:induction false} GatheredFacts(order: seq<VoteKey>, votes: seq<VoteRecord>)
    ensures forall id :: id in Gathered(order, votes) ==>
      Gathered(order, votes)[id].voterId == id && Gathered(order, votes)[id] in votes
    ensures forall key :: key in WindowAfter(order, votes) ==>
      key in order || (key.1 in Gathered(order, votes) && exists v :: v in votes && KeyOf(v) == key)
    ensures forall v :: v in votes ==> KeyOf(v) in order || v.voterId in Gathered(order, votes)
    decreases |votes|
  {
    if votes != [] {
      var front, v := votes[..|votes| - 1], votes[|votes| - 1];
      assert votes == front + [v];
      GatheredFacts(order, front);
      assert v in votes;
      forall key | key in WindowAfter(order, votes)
        ensures key in order || (key.1 in Gathered(order, votes) && exists v :: v in votes && KeyOf(v) == key)
      {
        assert key in WindowAfter(order, front) || key == KeyOf(v);
      }
    }
  }

  /** Nothing is gathered exactly when every vote is in the window from the start. */
  lemma {:induction false} NothingNew(order: seq<VoteKey>, votes: seq<VoteRecord>)
    ensures Gathered(order, votes) == map[] <==> forall v :: v in votes ==> KeyOf(v) in order
    ensures Gathered(order, votes) == map[] ==> WindowAfter(order, votes) == order
    decreases |votes|
  {
    if votes != [] {
      var front, v := votes[..|votes| - 1], votes[|votes| - 1];
      assert votes == front + [v];
      NothingNew(order, front);
      assert v.voterId in Gathered(order, front)[v.voterId := v];
      if Gathered(order, front).Keys == {} {
        assert Gathered(order, front) == map[];
      } else {
        assert Gathered(order, front).Keys <= Gathered(order, votes).Keys;
      }
    }
  }

  lemma {:induction false} GatheredGrows(order: seq<VoteKey>, votes: seq<VoteRecord>, more: seq<VoteRecord>)
    ensures Gathered(order, votes).Keys <= Gathered(order, votes + more).Keys
    decreases |more|
  {
    if more == [] {
      assert votes + more == votes;
    } else {
      assert (votes + more)[..|votes + more| - 1] == votes + more[..|more| - 1];
      GatheredGrows(order, votes, more[..|more| - 1]);
    }
  }

  /** On such a contest, while the window has room, each voter's first vote counts. */
  lemma {:induction false} FirstVoteCounts(order: seq<VoteKey>, votes: seq<VoteRecord>, contestId: ContestId, i: nat)
    requires forall key :: key in order ==> key.0 != contestId
    requires forall v :: v in votes ==> v.contestId == contestId
    requires |order| + |votes| <= SEEN_VOTES_CAP
    requires i < |votes| && forall j :: 0 <= j < i ==> votes[j].voterId != votes[i].voterId
    ensures votes[i].voterId in Gathered(order, votes) && Gathered(order, votes)[votes[i].voterId] == votes[i]
    decreases |votes|
  {
    var front, last := votes[..|votes| - 1], votes[|votes| - 1];
    assert votes == front + [last];
    RoomLeft(order, front);
    if i < |front| {
      FirstVoteCounts(order, front, contestId, i);
      assert KeyOf(last) == KeyOf(front[i]) ==> KeyOf(last) in WindowAfter(order, front);
    } else {
      GatheredFacts(order, front);
      assert KeyOf(last) !in order;
    }
  }

  /** While the window has room it holds every key that came. */
  lemma {:induction false} RoomLeft(order: seq<VoteKey>, votes: seq<VoteRecord>)
    requires |order| + |votes| <= SEEN_VOTES_CAP
    ensures |WindowAfter(order, votes)| <= |order| + |votes|
    ensures forall v :: v in votes ==> KeyOf(v) in WindowAfter(order, votes)
    decreases |votes|
  {
    if votes != [] {
      var front, v := votes[..|votes| - 1], votes[|votes| - 1];
      assert votes == front + [v];
      RoomLeft(order, front);
    }
  }

  /** On a contest that the window has not seen, the new voters are all voters. */
  lemma FreshContestHearsAll(order: seq<VoteKey>, votes: seq<VoteRecord>, contestId: ContestId)
    requires forall key :: key in order ==> key.0 != contestId
    requires forall v :: v in votes ==> v.contestId == contestId
    ensures Gathered(order, votes).Keys == set v | v in votes :: v.voterId
  {
    GatheredFacts(order, votes);
    forall id ensures id in Gathered(order, votes) <==> exists v :: v in votes && v.voterId == id {
      if v :| v in votes && v.voterId == id {
        assert KeyOf(v) !in order;
      }
    }
  }

  lemma {:induction false} HeardGrows(order: seq<VoteKey>, polls: seq<seq<VoteRecord>>, p: nat, n: nat)
    requires p <= n <= |polls|
    ensures HeardBy(order, polls, p).Keys <= HeardBy(order, polls, n).Keys
    decreases n
  {
    if p < n {
      HeardGrows(order, polls, p, n - 1);
      assert polls[..n][..n - 1] == polls[..n - 1];
      GatheredGrows(order, AllVotes(polls[..n - 1]), polls[n - 1]);
    }
  }

  class DeterministicResolver {
    var peerIds: seq<DroneId>
    const hasMesh: bool
    var roundId: int
    var seenVotes: set<VoteKey>
    var seenOrder: seq<VoteKey>
    var lastReceivedVotes: seq<VoteRecord>

    /** The dedup window: the seen set is exactly the duplicate-free order list, within its cap. */
    ghost predicate Valid()
      reads this`seenVotes, this`seenOrder
    {
      Distinct(seenOrder) && Elements(seenOrder) == seenVotes && |seenOrder| <= SEEN_VOTES_CAP
    }

    /** Every remembered vote belongs to a round already opened. */
    ghost predicate ContestsPast()
      reads this`seenVotes, this`roundId
    {
      forall key :: key in seenVotes ==> key.0.round <= roundId
    }

    constructor (peerIds: seq<DroneId>, hasMesh: bool)
      requires Distinct(peerIds)
      ensures Valid() && ContestsPast()
      ensures this.peerIds == peerIds && this.hasMesh == hasMesh && roundId == 0
      ensures seenVotes == {} && seenOrder == [] && lastReceivedVotes == []
    {
      this.peerIds := peerIds;
      this.hasMesh := hasMesh;
      roundId := 0;
      seenVotes := {};
      seenOrder := [];
      lastReceivedVotes := [];
    }

    method SyncRoundId(round: int)
      modifies this`roundId
      ensures roundId == if round > old(roundId) then round else old(roundId)
    {
      roundId := if round > roundId then round else roundId;
    }

    /** Opens a round of its own for the release of a silent drone's cell. */
    method ConfirmRelease(droneId: DroneId, cell: Coord, nowMs: int) returns (round: RoundResult)
      modifies this`roundId
      ensures roundId == old(roundId) + 1 && round.roundId == roundId
      ensures round.contestId == ContestId(roundId, cell, nowMs)
      ensures round.decision == AuctionDecision(cell, [], Release)
      ensures |round.votes| == |peerIds|
      ensures forall i :: 0 <= i < |peerIds| ==>
        round.votes[i] == VoteRecord(peerIds[i], ReleaseVote(droneId), round.contestId, nowMs, 0)
    {
      roundId := roundId + 1;
      var contestId := ContestId(roundId, cell, nowMs);
      var votes := seq(|peerIds|, i requires 0 <= i < |peerIds| reads this =>
        VoteRecord(peerIds[i], ReleaseVote(droneId), contestId, nowMs, 0));
      round := RoundResult(roundId, contestId, AuctionDecision(cell, [], Release), votes);
    }

    /** Remembers a vote unless it is in the window already; the window keeps the last ones. */
    method AcceptVote(key: VoteKey) returns (accepted: bool)
      requires Valid()
      modifies this`seenVotes, this`seenOrder
      ensures Valid()
      ensures accepted <==> key !in old(seenVotes)
      ensures seenOrder == if accepted then KeepLast(old(seenOrder) + [key], SEEN_VOTES_CAP) else old(seenOrder)
      ensures seenVotes <= old(seenVotes) + {key} && key in seenVotes
    {
      if key in seenVotes {
        return false;
      }
      hide Distinct, Elements, KeepLast;
      WindowPush(seenOrder, seenVotes, key);
      KeepLastPush(seenOrder, key, SEEN_VOTES_CAP);
      seenVotes := seenVotes + {key};
      seenOrder := seenOrder + [key];
      if |seenVotes| > SEEN_VOTES_CAP {
        var evict := seenOrder[0];
        seenOrder := seenOrder[1..];
        seenVotes := seenVotes - {evict};
      }
      return true;
    }

    /** Gathers votes until the quorum is met or the polls run out; one vote per voter counts. */
    method CollectQuorumVotes(quorum: nat, polls: seq<seq<VoteRecord>>) returns (votes: seq<VoteRecord>)
      requires Valid()
      modifies this`seenVotes, this`seenOrder
      ensures Valid() && Collected(old(seenOrder), polls, quorum, votes)
      ensures forall key :: key in seenVotes ==>
        key in old(seenVotes) || exists v :: Arrives(polls, v) && key == KeyOf(v)
    {
      hide Valid, KeepLast, Gathered, WindowAfter, AllVotes, Arrives, VotersAscend;
      ghost var order := seenOrder;
      var received: map<DroneId, VoteRecord> := map[];
      NoVotesYet(order, polls);
      InWindow();
      var p := 0;
      while |received| < quorum && p < |polls|
        invariant Valid() && p <= |polls|
        decreases |polls| - p
        invariant received == HeardBy(order, polls, p) && seenOrder == WindowAfter(order, AllVotes(polls[..p]))
        invariant forall q: nat :: q < p ==> |HeardBy(order, polls, q)| < quorum
      {
        var envelopes := polls[p];
        ghost var before := AllVotes(polls[..p]);
        assert before + envelopes[..0] == before;
        for k := 0 to |envelopes|
          invariant Valid()
          invariant received == Gathered(order, before + envelopes[..k])
          invariant seenOrder == WindowAfter(order, before + envelopes[..k])
        {
          var vote := envelopes[k];
          OneMore(order, before, envelopes, k);
          InWindow();
          var accepted := AcceptVote(KeyOf(vote));
          if accepted {
            received := received[vote.voterId := vote];
          }
        }
        NextPoll(order, polls, p);
        p := p + 1;
      }
      assert EndsAt(order, polls, quorum, p);
      VotesHeard(order, polls, p);
      InWindow();
      votes := ByVoter(received);
    }

    lemma InWindow()
      requires Valid()
      ensures forall key :: key in seenVotes <==> key in seenOrder
    {}

    /** The votes of the peers that hear the contest in time, each from the peer's own map. */
    method CollectPeerVotes(responders: seq<DroneId>, claims: seq<ClaimRequest>, maps: map<DroneId, MapView>,
                            view: MapView, claimed: set<Coord>, contestId: ContestId, nowMs: int, nonce: int)
        returns (cast: seq<VoteRecord>)
      requires claims != []
      ensures |cast| == |responders|
      ensures forall i :: 0 <= i < |cast| ==>
        cast[i] == PeerVote(responders[i], claims, maps, view, claimed, contestId, nowMs, nonce)
    {
      hide ResolveConflict, LeadChoice;
      cast := [];
      for i := 0 to |responders|
        invariant |cast| == i
        invariant forall k :: 0 <= k < i ==>
          cast[k] == PeerVote(responders[k], claims, maps, view, claimed, contestId, nowMs, nonce)
      {
        var peer := responders[i];
        LeadIgnoresMap(claims, view, PeerView(maps, view, peer), claimed, claimed);
        var decision := ResolveConflict(claims, PeerView(maps, view, peer), claimed).value;
        cast := cast + [VoteRecord(peer, LeadChoice(decision), contestId, nowMs, nonce)];
      }
    }

    function FallbackVotes(contestId: ContestId, decision: AuctionDecision, nowMs: int, nonce: int): seq<VoteRecord>
      requires decision.assignments != []
      reads this
    {
      seq(|peerIds|, i requires 0 <= i < |peerIds| reads this =>
        VoteRecord(peerIds[i], LeadChoice(decision), contestId, nowMs, nonce))
    }

    /** One round. `polls` is what successive polls of the contest topic bring until the deadline: any
        votes at all, in any order. The round fails exactly when it is put to the peers and hears nothing
        new; otherwise its decision is sound whatever arrived. It reports the votes it heard exactly when
        the new voters are more than half of the peers; below that it reports a lead vote of every peer,
        cast or not. The peers are asked when there is a mesh and more than one claim. */
    method ResolveClaims(claims: seq<ClaimRequest>, view: MapView, claimed: set<Coord>, nowMs: int,
                         initiator: Option<DroneId>, nonce: int, polls: seq<seq<VoteRecord>>)
        returns (r: Outcome)
      requires Valid()
      modifies this
      ensures Valid() && peerIds == old(peerIds)
      ensures roundId == old(roundId) + 1
      ensures r.NoClaims? <==> claims == []
      ensures r.NoPeers? <==> claims != [] && initiator.None? && peerIds == []
      ensures r.NoVotes? <==>
        && hasMesh && |claims| > 1 && !r.NoPeers?
        && forall v :: Arrives(polls, v) ==> KeyOf(v) in old(seenVotes)
      ensures r.Decided? ==>
        && r.round.roundId == roundId && r.round.contestId == ContestId(roundId, claims[0].cell, nowMs)
        && lastReceivedVotes == r.round.votes
        && RoundSound(claims, view, claimed, nowMs, nonce, polls, r.round)
      ensures r.Decided? && hasMesh && |claims| > 1 && 2 * |HeardBy(old(seenOrder), polls, |polls|)| > |peerIds| ==>
        && Counted(claims, view, claimed, old(seenOrder), polls, |peerIds| / 2 + 1, r.round)
        && 2 * |r.round.votes| > |peerIds|
      ensures r.Decided? && !(hasMesh && |claims| > 1 && 2 * |HeardBy(old(seenOrder), polls, |polls|)| > |peerIds|) ==>
        AllLead(claims, view, claimed, peerIds, nowMs, nonce, r.round)
      ensures claims != [] && old(ContestsPast()) && OnTopic(polls, ContestId(roundId, claims[0].cell, nowMs)) ==>
        ContestsPast() && (r.NoVotes? ==> forall v :: !Arrives(polls, v))
    {
      hide Valid, Arrives, Override, MajorityChoice, LeadChoice, RoundSound, ResolveConflict, VotersAscend, Collected,
           HeardBy;
      roundId := roundId + 1;
      ResolveShape(claims, view, claimed);
      var resolved := ResolveConflict(claims, view, claimed);
      if resolved.None? {
        return NoClaims;
      }
      var decision := resolved.value;
      var contestId := ContestId(roundId, decision.cell, nowMs);
      if initiator.None? && peerIds == [] {
        return NoPeers;
      }
      ConfirmedIsSound(claims, view, claimed, nowMs, nonce, polls);
      if !hasMesh || |claims| == 1 {
        var votes := FallbackVotes(contestId, decision, nowMs, nonce);
        lastReceivedVotes := votes;
        return Decided(RoundResult(roundId, contestId, decision, votes));
      }
      var quorum := |peerIds| / 2 + 1;
      InWindow();
      ghost var order := seenOrder;
      var received := CollectQuorumVotes(quorum, polls);
      CollectedExactly(order, polls, quorum, received);
      if |received| < quorum {
        if received == [] {
          return NoVotes(contestId);
        }
        var votes := FallbackVotes(contestId, decision, nowMs, nonce);
        lastReceivedVotes := votes;
        return Decided(RoundResult(roundId, contestId, decision, votes));
      }
      DecidedIsSound(claims, view, claimed, nowMs, nonce, polls, received, quorum);
      var result := Override(decision, MajorityChoice(received, LeadChoice(decision)));
      lastReceivedVotes := received;
      return Decided(RoundResult(roundId, contestId, result, received));
    }
  }

  /** The round reports the votes it heard, a quorum of different voters, and decides by them. */
  ghost predicate Counted(claims: seq<ClaimRequest>, view: MapView, claimed: set<Coord>, order: seq<VoteKey>,
                          polls: seq<seq<VoteRecord>>, quorum: nat, round: RoundResult)
  {
    && Collected(order, polls, quorum, round.votes) && |round.votes| >= quorum && VotersAscend(round.votes)
    && (forall i :: 0 <= i < |round.votes| ==> Arrives(polls, round.votes[i]))
    && var decision := ResolveConflict(claims, view, claimed);
       decision.Some? && decision.value.assignments != []
           && round.decision == Decide(decision.value, round.votes, quorum)
  }

  /** The round reports one vote of every peer for the lead, whatever was cast, and decides without them. */
  ghost predicate AllLead(claims: seq<ClaimRequest>, view: MapView, claimed: set<Coord>, peerIds: seq<DroneId>,
                          nowMs: int, nonce: int, round: RoundResult)
  {
    var decision := ResolveConflict(claims, view, claimed);
    && decision.Some? && decision.value.assignments != [] && round.decision == decision.value
    && |round.votes| == |peerIds|
    && forall i :: 0 <= i < |peerIds| ==>
      round.votes[i] == VoteRecord(peerIds[i], LeadChoice(decision.value), round.contestId, nowMs, nonce)
  }

  /** A contest between two peers of which only the first gets its vote through: the round is decided, and
      the second vote it reports was never cast. */
  method TwoPeersOneVote(view: MapView) returns (polls: seq<seq<VoteRecord>>, r: Outcome)
    ensures exists cast: VoteRecord :: cast.voterId == 1 && forall v :: Arrives(polls, v) <==> v == cast
    ensures r.Decided? && |r.round.votes| == 2 && r.round.votes[1].voterId == 2 && !Arrives(polls, r.round.votes[1])
  {
    hide RoundSound, ResolveConflict, LeadChoice, HeardBy;
    var resolver := new DeterministicResolver([1, 2], true);
    var cell := Coord(0, 0);
    var claims := [ClaimRequest(1, 1, cell, cell, 0), ClaimRequest(2, 2, cell, cell, 0)];
    var cast := PeerVote(1, claims, map[], view, {}, ContestId(1, cell, 0), 0, 0);
    polls := [[cast]];
    forall v ensures Arrives(polls, v) <==> v == cast {
      assert polls[0][0] == cast;
    }
    OneVoiceHeard(resolver.seenOrder, polls, cast);
    assert KeyOf(cast) !in resolver.seenVotes;
    r := resolver.ResolveClaims(claims, view, {}, 0, None, 0, polls);
  }

  /** Three peers of which two get their votes through in time: the round reports these two votes and no other. */
  method ThreePeersTwoVotes(view: MapView) returns (first: VoteRecord, second: VoteRecord, r: Outcome)
    ensures first.voterId == 1 && second.voterId == 2
    ensures r.Decided? && r.round.votes == [first, second]
  {
    hide RoundSound, ResolveConflict, LeadChoice, HeardBy, Collected;
    var resolver := new DeterministicResolver([1, 2, 3], true);
    var cell := Coord(0, 0);
    var claims := [ClaimRequest(1, 1, cell, cell, 0), ClaimRequest(2, 2, cell, cell, 0)];
    first := PeerVote(1, claims, map[], view, {}, ContestId(1, cell, 0), 0, 0);
    second := PeerVote(2, claims, map[], view, {}, ContestId(1, cell, 0), 0, 0);
    var polls := [[first], [second]];
    assert Arrives(polls, first) by {
      assert polls[0][0] == first;
    }
    TwoVoicesHeard(first, second);
    assert KeyOf(first) !in resolver.seenVotes;
    r := resolver.ResolveClaims(claims, view, {}, 0, None, 0, polls);
    BothReported(first, second, r.round.votes);
  }

  lemma TwoVoicesHeard(v: VoteRecord, w: VoteRecord)
    requires v.voterId < w.voterId
    ensures HeardBy([], [[v], [w]], 0) == map[]
    ensures HeardBy([], [[v], [w]], 1) == map[v.voterId := v]
    ensures HeardBy([], [[v], [w]], 2) == map[v.voterId := v, w.voterId := w]
  {
    hide HeardBy, WindowAfter, AllVotes;
    var polls := [[v], [w]];
    NoVotesYet([], polls);
    OneVotePoll([], polls, 0);
    OneVotePoll([], polls, 1);
  }

  lemma OneVotePoll(order: seq<VoteKey>, polls: seq<seq<VoteRecord>>, p: nat)
    requires p < |polls| && |polls[p]| == 1
    ensures var v, w := polls[p][0], WindowAfter(order, AllVotes(polls[..p]));
      && WindowAfter(order, AllVotes(polls[..p + 1]))
         == (if KeyOf(v) in w then w else KeepLast(w + [KeyOf(v)], SEEN_VOTES_CAP))
      && HeardBy(order, polls, p + 1)
         == if KeyOf(v) in w then HeardBy(order, polls, p) else HeardBy(order, polls, p)[v.voterId := v]
  {
    hide Gathered, WindowAfter, AllVotes, KeepLast;
    NextPoll(order, polls, p);
    OneMore(order, AllVotes(polls[..p]), polls[p], 0);
    assert AllVotes(polls[..p]) + polls[p][..0] == AllVotes(polls[..p]);
  }

  lemma BothReported(v: VoteRecord, w: VoteRecord, votes: seq<VoteRecord>)
    requires v.voterId < w.voterId && Collected([], [[v], [w]], 2, votes)
    ensures votes == [v, w]
  {
    hide HeardBy;
    TwoVoicesHeard(v, w);
    var p: nat :| EndsAt([], [[v], [w]], 2, p) && Lists(votes, HeardBy([], [[v], [w]], p));
    assert p == 2;
    var heard := map[v.voterId := v, w.voterId := w];
    assert heard.Keys == {v.voterId, w.voterId} && |heard| == 2;
    assert votes[0].voterId in heard && votes[1].voterId in heard && votes[0].voterId < votes[1].voterId;
  }

  lemma OneVoiceHeard(order: seq<VoteKey>, polls: seq<seq<VoteRecord>>, v: VoteRecord)
    requires polls == [[v]]
    ensures |HeardBy(order, polls, |polls|)| <= 1
  {
    VotesHeard(order, polls, 1);
    forall id | id in HeardBy(order, polls, 1) ensures id == v.voterId {
      assert Arrives(polls, HeardBy(order, polls, 1)[id]);
    }
    SubsetSize(HeardBy(order, polls, 1).Keys, {v.voterId});
  }

  /** The votes carry the id of the contest on whose topic they arrive. */
  ghost predicate OnTopic(polls: seq<seq<VoteRecord>>, contestId: ContestId) {
    forall v :: Arrives(polls, v) ==> v.contestId == contestId
  }

  /** What a decided round guarantees. True votes, however few arrive and whatever maps they were cast
      on, leave the initiator's decision as it is. No votes, true or false, change anybody's assignment. */
  ghost predicate RoundSound(claims: seq<ClaimRequest>, view: MapView, claimed: set<Coord>, nowMs: int, nonce: int,
                             polls: seq<seq<VoteRecord>>, round: RoundResult)
  {
    && claims != []
    && (forall maps :: Honest(polls, claims, maps, view, claimed, round.contestId, nowMs, nonce) ==>
          round.decision == ResolveConflict(claims, view, claimed).value)
    && (DistinctDrones(claims) ==>
          && round.decision.cell == claims[0].cell
          && multiset(round.decision.assignments) == multiset(ResolveConflict(claims, view, claimed).value.assignments))
  }

  lemma ResolveShape(claims: seq<ClaimRequest>, view: MapView, claimed: set<Coord>)
    ensures var r := ResolveConflict(claims, view, claimed);
      && (r.None? <==> claims == [])
      && (r.Some? ==> r.value.assignments != [] && r.value.cell == claims[0].cell)
  {
    hide Fallbacks, Ties, Sort;
  }

  lemma ConfirmedIsSound(claims: seq<ClaimRequest>, view: MapView, claimed: set<Coord>, nowMs: int, nonce: int,
                         polls: seq<seq<VoteRecord>>)
    requires claims != []
    ensures forall round: RoundResult :: round.decision == ResolveConflict(claims, view, claimed).value ==>
      RoundSound(claims, view, claimed, nowMs, nonce, polls, round)
  {
    hide ResolveConflict;
    ResolveShape(claims, view, claimed);
  }

  lemma DecidedIsSound(claims: seq<ClaimRequest>, view: MapView, claimed: set<Coord>, nowMs: int, nonce: int,
                       polls: seq<seq<VoteRecord>>, received: seq<VoteRecord>, quorum: nat)
    requires claims != [] && |received| >= quorum
    requires forall i :: 0 <= i < |received| ==> Arrives(polls, received[i])
    ensures ResolveConflict(claims, view, claimed).value.assignments != []
    ensures forall round: RoundResult ::
      round.decision == Decide(ResolveConflict(claims, view, claimed).value, received, quorum) ==>
        RoundSound(claims, view, claimed, nowMs, nonce, polls, round)
  {
    hide ResolveConflict, Decide, PeerVote, LeadChoice, Arrives;
    ResolveShape(claims, view, claimed);
    var decision := ResolveConflict(claims, view, claimed).value;
    forall round: RoundResult, maps | round.decision == Decide(decision, received, quorum)
                                      && Honest(polls, claims, maps, view, claimed, round.contestId, nowMs, nonce)
      ensures round.decision == decision
    {
      forall i | 0 <= i < |received| ensures received[i].choice == LeadChoice(decision) {
        HonestVotesAgree(received[i].voterId, claims, maps, view, claimed, round.contestId, nowMs, nonce);
      }
      UnanimousVotesConfirm(decision, received, quorum);
    }
    if DistinctDrones(claims) {
      AssigneesDistinct(claims, view, claimed);
      VotesKeepAssignments(decision, received, quorum);
    }
  }

  lemma AssigneesDistinct(claims: seq<ClaimRequest>, view: MapView, claimed: set<Coord>)
    requires claims != [] && DistinctDrones(claims)
    ensures DistinctAssignees(ResolveConflict(claims, view, claimed).value.assignments)
  {
    hide ResolveConflict, Sort, ClaimLe;
    ResolveShape(claims, view, claimed);
    var assignments := ResolveConflict(claims, view, claimed).value.assignments;
    AssignmentsFollowRanking(claims, view, claimed);
    PermutedDrones(claims, Ranked(claims));
    assert forall i :: 0 <= i < |assignments| ==> assignments[i].droneId == DroneIds(assignments)[i];
    assert forall i :: 0 <= i < |Ranked(claims)| ==> Claimants(Ranked(claims))[i] == Ranked(claims)[i].droneId;
  }

  lemma PermutedDrones(claims: seq<ClaimRequest>, ranked: seq<ClaimRequest>)
    requires DistinctDrones(claims) && multiset(claims) == multiset(ranked)
    ensures DistinctDrones(ranked)
  {
    PermutedDistinct(claims, ranked);
    SameElements(claims, ranked);
    forall i, j | 0 <= i < j < |ranked| ensures ranked[i].droneId != ranked[j].droneId {
      assert ranked[i] in ranked && ranked[j] in ranked;
      var a :| 0 <= a < |claims| && claims[a] == ranked[i];
      var b :| 0 <= b < |claims| && claims[b] == ranked[j];
    }
  }

  /** Every vote that arrives was cast, for this contest, by a peer that ran the auction itself. */
  ghost predicate Honest(polls: seq<seq<VoteRecord>>, claims: seq<ClaimRequest>, maps: map<DroneId, MapView>,
                         view: MapView, claimed: set<Coord>, contestId: ContestId, nowMs: int, nonce: int)
    requires claims != []
  {
    forall v :: Arrives(polls, v) ==>
      v == PeerVote(v.voterId, claims, maps, view, claimed, contestId, nowMs, nonce)
  }

  lemma NoVotesYet(order: seq<VoteKey>, polls: seq<seq<VoteRecord>>)
    ensures HeardBy(order, polls, 0) == map[] && WindowAfter(order, AllVotes(polls[..0])) == order
  {}

  lemma OneMore(order: seq<VoteKey>, before: seq<VoteRecord>, envelopes: seq<VoteRecord>, k: nat)
    requires k < |envelopes|
    ensures var votes, v := before + envelopes[..k], envelopes[k];
      var w := WindowAfter(order, votes);
      && WindowAfter(order, before + envelopes[..k + 1])
          == (if KeyOf(v) in w then w else KeepLast(w + [KeyOf(v)], SEEN_VOTES_CAP))
      && Gathered(order, before + envelopes[..k + 1])
         == if KeyOf(v) in w then Gathered(order, votes) else Gathered(order, votes)[v.voterId := v]
  {
    var votes := before + envelopes[..k + 1];
    assert votes[..|votes| - 1] == before + envelopes[..k];
    assert votes[|votes| - 1] == envelopes[k];
  }

  lemma NextPoll(order: seq<VoteKey>, polls: seq<seq<VoteRecord>>, p: nat)
    requires p < |polls|
    ensures var all := AllVotes(polls[..p]) + polls[p][..|polls[p]|];
      AllVotes(polls[..p + 1]) == all && HeardBy(order, polls, p + 1) == Gathered(order, all)
  {
    assert polls[..p + 1][..p] == polls[..p];
    assert polls[p][..|polls[p]|] == polls[p];
  }

  /** What is heard arrived, and what enters the window was heard. */
  lemma VotesHeard(order: seq<VoteKey>, polls: seq<seq<VoteRecord>>, p: nat)
    requires p <= |polls|
    ensures forall id :: id in HeardBy(order, polls, p) ==>
      HeardBy(order, polls, p)[id].voterId == id && Arrives(polls, HeardBy(order, polls, p)[id])
    ensures forall key :: key in WindowAfter(order, AllVotes(polls[..p])) ==>
      key in order || exists v :: Arrives(polls, v) && key == KeyOf(v)
  {
    hide Gathered, WindowAfter, AllVotes;
    GatheredFacts(order, AllVotes(polls[..p]));
    forall v | v in AllVotes(polls[..p]) ensures Arrives(polls, v) {
      ArrivesSomewhere(polls[..p], v);
      var i, k :| 0 <= i < |polls[..p]| && 0 <= k < |polls[..p][i]| && polls[..p][i][k] == v;
      assert polls[i][k] == v;
    }
  }

  /** The collected votes arrived; they are a quorum exactly when all polls together bring a quorum of new
      voters, and none exactly when every vote that arrives is in the window. */
  lemma CollectedExactly(order: seq<VoteKey>, polls: seq<seq<VoteRecord>>, quorum: nat, votes: seq<VoteRecord>)
    requires Collected(order, polls, quorum, votes) && quorum > 0
    ensures VotersAscend(votes) && forall i :: 0 <= i < |votes| ==> Arrives(polls, votes[i])
    ensures |votes| >= quorum <==> |HeardBy(order, polls, |polls|)| >= quorum
    ensures votes == [] <==> forall v :: Arrives(polls, v) ==> KeyOf(v) in order
  {
    hide HeardBy, Arrives, VotersAscend;
    var p: nat :| EndsAt(order, polls, quorum, p) && Lists(votes, HeardBy(order, polls, p));
    VotesHeard(order, polls, p);
    HeardGrows(order, polls, p, |polls|);
    SubsetSize(HeardBy(order, polls, p).Keys, HeardBy(order, polls, |polls|).Keys);
    NothingHeard(order, polls);
    if votes == [] {
      assert p == |polls|;
    }
  }

  /** The wait ends with the first poll that brings the number of new voters to the quorum, and at the
      deadline when none does; later votes of that round are not read. */
  lemma StopsAtQuorum(order: seq<VoteKey>, polls: seq<seq<VoteRecord>>, quorum: nat, votes: seq<VoteRecord>, p: nat)
    requires Collected(order, polls, quorum, votes) && p <= |polls|
    requires forall q: nat :: q < p ==> |HeardBy(order, polls, q)| < quorum
    requires |HeardBy(order, polls, p)| >= quorum || p == |polls|
    ensures |votes| == |HeardBy(order, polls, p)|
    ensures forall v :: v in votes <==>
      v.voterId in HeardBy(order, polls, p) && HeardBy(order, polls, p)[v.voterId] == v
  {
    hide HeardBy, VotersAscend;
    var ended: nat :| EndsAt(order, polls, quorum, ended) && Lists(votes, HeardBy(order, polls, ended));
    assert ended == p;
    forall v ensures v in votes <==> v.voterId in HeardBy(order, polls, p) && HeardBy(order, polls, p)[v.voterId] == v {
      if v.voterId in HeardBy(order, polls, p) {
        var i :| 0 <= i < |votes| && votes[i].voterId == v.voterId;
      }
    }
  }

  lemma NothingHeard(order: seq<VoteKey>, polls: seq<seq<VoteRecord>>)
    ensures HeardBy(order, polls, |polls|) == map[] <==> forall v :: Arrives(polls, v) ==> KeyOf(v) in order
  {
    hide Gathered, AllVotes, Arrives;
    assert polls[..|polls|] == polls;
    NothingNew(order, AllVotes(polls));
    forall v ensures Arrives(polls, v) <==> v in AllVotes(polls) {
      ArrivesSomewhere(polls, v);
    }
  }

  method SortedKeys(keys: set<DroneId>) returns (sorted: seq<DroneId>)
    ensures |sorted| == |keys|
    ensures forall i :: 0 <= i < |sorted| ==> sorted[i] in keys
    ensures forall id :: id in keys ==> id in sorted
    ensures forall i, j :: 0 <= i < j < |sorted| ==> sorted[i] < sorted[j]
  {
    var ids := ListSet(keys);
    DistinctLength(ids);
    SortedIds(ids);
    sorted := Sort(ids, IdLe);
    hide Sort, Distinct;
    assert forall id :: id in keys <==> id in ids;
    assert forall i :: 0 <= i < |sorted| ==> sorted[i] in sorted;
  }

  /** The votes in order of voter id. */
  method ByVoter(received: map<DroneId, VoteRecord>) returns (votes: seq<VoteRecord>)
    requires forall id :: id in received ==> received[id].voterId == id
    ensures Lists(votes, received)
  {
    hide Sort, Distinct;
    var sorted := SortedKeys(received.Keys);
    votes := seq(|sorted|, i requires 0 <= i < |sorted| => received[sorted[i]]);
    forall id | id in received ensures exists i :: 0 <= i < |votes| && votes[i].voterId == id {
      assert id in sorted;
      var i :| 0 <= i < |sorted| && sorted[i] == id;
      assert votes[i].voterId == id;
    }
  }
}
