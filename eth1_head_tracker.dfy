/**
 * The Eth1 follow-distance head tracker. While running it polls the Eth1
 * provider for the latest block. It keeps the number of the block that lies
 * `followDistance` blocks behind the newest head seen so far, and it tells
 * its subscribers each time that number advances.
 *
 * The update rule is given as pure functions: Candidate, Advance, and the
 * folds HeadAfter and Delivered over the sequence of head numbers processed.
 * The tracker class keeps its fields equal to those folds over the numbers
 * it has processed (the ghost field `seen`).
 */
module Eth1HeadTracking {
  import opened Wrappers
  import opened Unsigned

  /**
   * The block at follow distance behind a head numbered `number`. There is
   * none while the chain is shorter than the follow distance, so the
   * subtraction never goes below zero.
   */
  function Candidate(followDistance: uint64, number: uint64): (r: Option<uint64>)
    ensures r.Some? <==> followDistance <= number
    ensures r.Some? ==> r.value + followDistance == number
  {
    if number < followDistance then None else Some(number - followDistance)
  }

  /**
   * One step of the update rule. The result is the new head at follow
   * distance after a head numbered `number` arrives, or None when the tracked
   * head does not change: the chain is too short, or the candidate is not
   * strictly above the current head.
   */
  function Advance(head: Option<uint64>, followDistance: uint64, number: uint64): (r: Option<uint64>)
    ensures r.Some? ==> Candidate(followDistance, number) == r
    ensures r.Some? ==> head.None? || head.value < r.value
    ensures r.None? ==> Candidate(followDistance, number).None?
                        || (head.Some? && Candidate(followDistance, number).value <= head.value)
  {
    match Candidate(followDistance, number)
    case None => None
    case Some(c) => if head.None? || head.value < c then Some(c) else None
  }

  /** The head at follow distance after a fresh tracker processes `numbers` in order. */
  function HeadAfter(followDistance: uint64, numbers: seq<uint64>): Option<uint64>
  {
    if numbers == [] then None
    else
      var head := HeadAfter(followDistance, numbers[..|numbers| - 1]);
      match Advance(head, followDistance, numbers[|numbers| - 1])
      case None => head
      case Some(h) => Some(h)
  }

  /** The values delivered to subscribers while a fresh tracker processes `numbers` in order. */
  function Delivered(followDistance: uint64, numbers: seq<uint64>): seq<uint64>
  {
    if numbers == [] then []
    else
      var prefix := numbers[..|numbers| - 1];
      match Advance(HeadAfter(followDistance, prefix), followDistance, numbers[|numbers| - 1])
      case None => Delivered(followDistance, prefix)
      case Some(h) => Delivered(followDistance, prefix) + [h]
  }

  ghost predicate StrictlyIncreasing(s: seq<uint64>)
  {
    forall i, j :: 0 <= i < j < |s| ==> s[i] < s[j]
  }

  /**
   * The reference definition of the tracked head: `m` is the follow-distance
   * candidate of one of the numbers, and no number has a larger candidate.
   */
  ghost predicate IsLargestCandidate(followDistance: uint64, numbers: seq<uint64>, m: uint64)
  {
    && (exists k :: 0 <= k < |numbers| && Candidate(followDistance, numbers[k]) == Some(m))
    && (forall k :: 0 <= k < |numbers| && followDistance <= numbers[k] ==> numbers[k] - followDistance <= m)
  }

  /**
   * The tracked head is exactly the largest follow-distance candidate of all
   * the heads seen, and it is unset exactly when no head reached the follow
   * distance.
   */
  lemma {:induction false} HeadIsLargestCandidate(followDistance: uint64, numbers: seq<uint64>)
    ensures HeadAfter(followDistance, numbers).None?
            <==> forall k :: 0 <= k < |numbers| ==> numbers[k] < followDistance
    ensures HeadAfter(followDistance, numbers).Some?
            ==> IsLargestCandidate(followDistance, numbers, HeadAfter(followDistance, numbers).value)
  {
    if numbers != [] {
      var prefix := numbers[..|numbers| - 1];
      var n := numbers[|numbers| - 1];
      var last := |numbers| - 1;
      HeadIsLargestCandidate(followDistance, prefix);
      assert forall k :: 0 <= k < |prefix| ==> prefix[k] == numbers[k];
      var head := HeadAfter(followDistance, prefix);
      match Advance(head, followDistance, n)
      case Some(h) =>
        assert Candidate(followDistance, numbers[last]) == Some(h);
      case None =>
        if head.Some? {
          var k :| 0 <= k < |prefix| && Candidate(followDistance, prefix[k]) == Some(head.value);
          assert Candidate(followDistance, numbers[k]) == Some(head.value);
        } else {
          assert n < followDistance;
        }
    }
  }

  /**
   * Subscribers see strictly increasing values, they see something exactly
   * when the head is set, and the last value they saw is the current head.
   */
  lemma {:induction false} DeliveredIncreasing(followDistance: uint64, numbers: seq<uint64>)
    ensures StrictlyIncreasing(Delivered(followDistance, numbers))
    ensures Delivered(followDistance, numbers) == [] <==> HeadAfter(followDistance, numbers).None?
    ensures Delivered(followDistance, numbers) != []
            ==> HeadAfter(followDistance, numbers)
                == Some(Delivered(followDistance, numbers)[|Delivered(followDistance, numbers)| - 1])
  {
    if numbers != [] {
      var prefix := numbers[..|numbers| - 1];
      DeliveredIncreasing(followDistance, prefix);
    }
  }

  /** A head at or past the follow distance is always reflected: afterwards the tracked head is at least its candidate. */
  lemma HeadCoversLatest(followDistance: uint64, numbers: seq<uint64>, number: uint64)
    requires followDistance <= number
    ensures HeadAfter(followDistance, numbers + [number]).Some?
    ensures number - followDistance <= HeadAfter(followDistance, numbers + [number]).value
  {
    assert (numbers + [number])[..|numbers|] == numbers;
  }

  /** The block numbers a poll hands on: the provider's answer when it is a UInt64; nothing when the request failed or the number does not fit. */
  function Processed(latest: Option<nat>): (r: seq<uint64>)
    ensures |r| <= 1
    ensures r != [] <==> latest.Some? && latest.value < UINT64_LIMIT
    ensures r != [] ==> r[0] == latest.value
  {
    if latest.Some? && latest.value < UINT64_LIMIT then [latest.value] else []
  }

  class BlockBasedEth1HeadTracker {
    /** The configured Eth1 follow distance. */
    const followDistance: uint64
    var running: bool
    var headAtFollowDistance: Option<uint64>
    var reachedHead: bool
    /** Every value delivered to the subscribers, in delivery order. */
    var notifications: seq<uint64>
    /** The head block numbers processed so far, in arrival order. */
    ghost var seen: seq<uint64>

    ghost predicate Valid()
      reads this
    {
      && headAtFollowDistance == HeadAfter(followDistance, seen)
      && notifications == Delivered(followDistance, seen)
      && reachedHead == headAtFollowDistance.Some?
    }

    /** A new tracker is stopped and has seen nothing. */
    constructor (followDistance: uint64)
      ensures Valid()
      ensures this.followDistance == followDistance
      ensures !running && seen == []
      ensures headAtFollowDistance == None && !reachedHead && notifications == []
    {
      this.followDistance := followDistance;
      running := false;
      headAtFollowDistance := None;
      reachedHead := false;
      notifications := [];
      seen := [];
    }

    /**
     * The tracked head and the notifications after a head numbered `number`
     * was processed, starting from `head` and `delivered`: advanced and
     * announced when the update rule advances, unchanged otherwise.
     */
    ghost predicate Absorbed(head: Option<uint64>, delivered: seq<uint64>, number: uint64)
      reads this
    {
      match Advance(head, followDistance, number)
      case Some(h) => headAtFollowDistance == Some(h) && notifications == delivered + [h]
      case None => headAtFollowDistance == head && notifications == delivered
    }

    /**
     * Starts polling. Only the call that finds the tracker stopped polls
     * (`polled`); on a running tracker the call changes nothing.
     * `latest` is the provider's answer to that first poll.
     */
    method Start(latest: Option<nat>) returns (polled: bool)
      requires Valid()
      modifies this
      ensures Valid()
      ensures polled == !old(running)
      ensures running
      ensures old(running) ==> unchanged(this)
      ensures !old(running) ==> seen == old(seen) + Processed(latest)
    {
      if running {
        return false;
      }
      running := true;
      var requested := PollLatestHead(latest);
      polled := true;
    }

    /**
     * One poll of the provider. A stopped tracker does not ask (`requested`
     * is false) and changes nothing. A running one processes the answer when
     * there is one that fits a UInt64. A failed request is only logged.
     */
    method PollLatestHead(latest: Option<nat>) returns (requested: bool)
      requires Valid()
      modifies this
      ensures Valid()
      ensures requested == old(running)
      ensures running == old(running)
      ensures !old(running) ==> unchanged(this)
      ensures old(running) ==> seen == old(seen) + Processed(latest)
      ensures old(running) && Processed(latest) != [] ==>
        Absorbed(old(headAtFollowDistance), old(notifications), Processed(latest)[0])
      ensures Processed(latest) == [] ==>
        headAtFollowDistance == old(headAtFollowDistance) && notifications == old(notifications)
    {
      if !running {
        return false;
      }
      requested := true;
      if latest.Some? && latest.value < UINT64_LIMIT {
        var delivered := OnLatestBlockHead(latest.value);
      }
    }

    /**
     * Processes a head block numbered `number`. `delivered` is the value
     * announced to the subscribers, if any. It is present exactly when the
     * head at follow distance advances, and it is the new head.
     */
    method OnLatestBlockHead(number: uint64) returns (delivered: Option<uint64>)
      requires Valid()
      modifies this`headAtFollowDistance, this`reachedHead, this`notifications, this`seen
      ensures Valid()
      ensures seen == old(seen) + [number]
      ensures delivered == Advance(old(headAtFollowDistance), followDistance, number)
      ensures delivered.Some? ==> headAtFollowDistance == delivered && reachedHead
                                  && notifications == old(notifications) + [delivered.value]
      ensures delivered.None? ==> headAtFollowDistance == old(headAtFollowDistance)
                                  && reachedHead == old(reachedHead)
                                  && notifications == old(notifications)
    {
      seen := seen + [number];
      assert seen[..|seen| - 1] == old(seen);
      if number < followDistance {
        return None;
      }
      var newHead := number - followDistance;
      if headAtFollowDistance.None? || headAtFollowDistance.value < newHead {
        reachedHead := true;
        headAtFollowDistance := Some(newHead);
        notifications := notifications + [newHead];
        delivered := Some(newHead);
      } else {
        delivered := None;
      }
    }

    /** Stops polling; later polls do nothing. */
    method Stop()
      modifies this`running
      ensures !running
    {
      running := false;
    }
  }

  /**
   * A run with follow distance 10: the first poll sees head 5 (too short),
   * the next sees 12 (head 2 announced), then 11 (candidate 1, ignored) and
   * 15 (head 5 announced); after stopping, a poll asks nothing.
   */
  method FollowDistanceRun() returns (first: Option<uint64>, requestedAfterStop: bool, notified: seq<uint64>)
    ensures first == None
    ensures !requestedAfterStop
    ensures notified == [2, 5]
  {
    FollowDistanceSteps();
    var tracker := new BlockBasedEth1HeadTracker(10);
    var polled := tracker.Start(Some(5));
    first := tracker.headAtFollowDistance;
    var requested := tracker.PollLatestHead(Some(12));
    assert tracker.notifications == [2];
    requested := tracker.PollLatestHead(Some(11));
    assert tracker.headAtFollowDistance == Some(2);
    requested := tracker.PollLatestHead(Some(15));
    assert tracker.notifications == [2, 5];
    tracker.Stop();
    requestedAfterStop := tracker.PollLatestHead(Some(20));
    notified := tracker.notifications;
  }

  /** The update rule along the run above: 5 is too short, 12 gives 2, 11 gives nothing, 15 gives 5. */
  lemma FollowDistanceSteps()
    ensures Advance(None, 10, 5) == None && Advance(None, 10, 12) == Some(2)
    ensures Advance(Some(2), 10, 11) == None && Advance(Some(2), 10, 15) == Some(5)
    ensures Processed(Some(5)) == [5] && Processed(Some(12)) == [12]
    ensures Processed(Some(11)) == [11] && Processed(Some(15)) == [15]
  {
  }
}
