/**
 The booking lifecycle: five statuses and the fixed table of legal next
 statuses (`BookingStatus` enum).
 */
module BookingStatus {
  import opened Text

  datatype Status = Pending | Confirmed | InProgress | Completed | Cancelled

  function DisplayName(s: Status): string {
    match s
    case Pending => "Pending"
    case Confirmed => "Confirmed"
    case InProgress => "In Progress"
    case Completed => "Completed"
    case Cancelled => "Cancelled"
  }

  function Icon(s: Status): string {
    match s
    case Pending => "\U{23F3}"
    case Confirmed => "\U{2705}"
    case InProgress => "\U{1F697}"
    case Completed => "\U{1F3C1}"
    case Cancelled => "\U{274C}"
  }

  predicate IsTerminal(s: Status) {
    s == Completed || s == Cancelled
  }

  /** How far along the lifecycle a status is; both terminal statuses are last. */
  function Stage(s: Status): nat {
    match s
    case Pending => 0
    case Confirmed => 1
    case InProgress => 2
    case Completed => 3
    case Cancelled => 3
  }

  /** The status a booking normally advances to, for the non-terminal ones. */
  function Advance(s: Status): Status
    requires !IsTerminal(s)
  {
    match s
    case Pending => Confirmed
    case Confirmed => InProgress
    case InProgress => Completed
  }

  /** `getNextPossibleStatuses()`. */
  function NextPossibleStatuses(s: Status): (r: seq<Status>)
    ensures IsTerminal(s) ==> r == []
    ensures !IsTerminal(s) ==> r == [Advance(s), Cancelled]
  {
    match s
    case Pending => [Confirmed, Cancelled]
    case Confirmed => [InProgress, Cancelled]
    case InProgress => [Completed, Cancelled]
    case Completed => []
    case Cancelled => []
  }

  /** `canTransitionTo(target)`: the target occurs in the successor table. */
  function CanTransitionTo(from: Status, to: Status): (r: bool)
    ensures r <==> !IsTerminal(from) && (to == Advance(from) || to == Cancelled)
    ensures r ==> Stage(to) > Stage(from)
  {
    to in NextPossibleStatuses(from)
  }

  /** Completed and Cancelled have no successors; every other status has exactly two. */
  lemma {:induction false} SuccessorCounts(s: Status)
    ensures |NextPossibleStatuses(s)| == 0 <==> IsTerminal(s)
    ensures !IsTerminal(s) ==> |NextPossibleStatuses(s)| == 2
  {
  }

  /** No status may transition to itself. */
  lemma {:induction false} NoSelfTransition(s: Status)
    ensures !CanTransitionTo(s, s)
  {
  }

  /** No status lists Pending as a successor. */
  lemma {:induction false} NeverBackToPending(s: Status)
    ensures !CanTransitionTo(s, Pending)
  {
  }

  /** Every non-terminal status may be cancelled. */
  lemma {:induction false} CancelFromNonTerminal(s: Status)
    ensures CanTransitionTo(s, Cancelled) <==> !IsTerminal(s)
  {
  }

  /** Each step of `c` is a legal transition. */
  ghost predicate IsLegalChain(c: seq<Status>) {
    forall i :: 0 < i < |c| ==> CanTransitionTo(c[i - 1], c[i])
  }

  lemma {:induction false} ChainClimbs(c: seq<Status>, i: nat)
    requires IsLegalChain(c) && i < |c|
    ensures Stage(c[i]) >= Stage(c[0]) + i
  {
    if i > 0 {
      ChainClimbs(c, i - 1);
    }
  }

  /** Every chain of legal transitions has at most three steps: the lifecycle terminates. */
  lemma {:induction false} LegalChainsAreShort(c: seq<Status>)
    requires IsLegalChain(c)
    ensures |c| <= 4
  {
    if |c| > 4 {
      ChainClimbs(c, 4);
    }
  }

  const RejectionPrefix: string := "Cannot change status from "

  /** The message for a permitted transition into `to`. */
  function SuccessMessage(to: Status): (r: string)
    ensures !IsPrefix(RejectionPrefix, r)
  {
    var r := match to
      case Confirmed => "Booking confirmed! " + "You will be contacted shortly."
      case InProgress => "Your trip has started. " + "Have a safe journey!"
      case Completed => "Trip completed successfully. " + "Thank you for using our service!"
      case Cancelled => "Booking has been cancelled."
      case Pending => "Status updated to " + DisplayName(to);
    FirstCharRulesOutPrefix(RejectionPrefix, r);
    r
  }

  /** `getTransitionMessage(toStatus)` called on `from`. */
  function TransitionMessage(from: Status, to: Status): (r: string)
    ensures IsPrefix(RejectionPrefix, r) <==> !CanTransitionTo(from, to)
    ensures !CanTransitionTo(from, to) ==> r == RejectionPrefix + DisplayName(from) + " to " + DisplayName(to)
  {
    if !CanTransitionTo(from, to) then
      RejectionPrefix + DisplayName(from) + " to " + DisplayName(to)
    else
      SuccessMessage(to)
  }

  /** The message asked for a status and itself (as after a successful admin update) is always the rejection text. */
  lemma {:induction false} SelfMessageIsRejection(s: Status)
    ensures TransitionMessage(s, s) == RejectionPrefix + DisplayName(s) + " to " + DisplayName(s)
  {
    NoSelfTransition(s);
  }
}
