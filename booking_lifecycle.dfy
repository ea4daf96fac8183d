/** The booking lifecycle of models/sports_booking.py: the five states and
    the guards of the `action_*` buttons. */
module BookingLifecycle {
  import opened Wrappers

  datatype State = Draft | Confirmed | InProgress | Completed | Cancelled

  datatype Action = Confirm | Start | Complete | Cancel | SetToDraft

  /** The state an action moves a record to, or `None` where the action
      raises `UserError` for the record's current state. */
  function Transition(s: State, a: Action): (r: Option<State>)
    ensures s == Completed ==> r.None?
    ensures a == Cancel ==> (r.Some? <==> s != Completed)
    ensures r.Some? && r.value == s ==> s == Cancelled && a == Cancel
  {
    match a
    case Confirm => if s == Draft then Some(Confirmed) else None
    case Start => if s == Confirmed then Some(InProgress) else None
    case Complete => if s == InProgress then Some(Completed) else None
    case Cancel => if s == Completed then None else Some(Cancelled)
    case SetToDraft => if s == Cancelled then Some(Draft) else None
  }

  /** The lifecycle as a table of edges (from, action, to), independent of
      `Transition`. */
  const Edges: set<(State, Action, State)> := {
    (Draft, Confirm, Confirmed),
    (Confirmed, Start, InProgress),
    (InProgress, Complete, Completed),
    (Draft, Cancel, Cancelled),
    (Confirmed, Cancel, Cancelled),
    (InProgress, Cancel, Cancelled),
    (Cancelled, Cancel, Cancelled),
    (Cancelled, SetToDraft, Draft)
  }

  /** Repeating an action that succeeded either fails or keeps the state it
      reached: only a second cancel succeeds, and it stays cancelled. */
  lemma RepeatedAction(s: State, a: Action)
    requires Transition(s, a).Some?
    ensures Transition(Transition(s, a).value, a).Some? ==>
      Transition(Transition(s, a).value, a) == Transition(s, a) && a == Cancel
  {
  }

  /** `Transition` succeeds exactly along the edges of the table. */
  lemma TransitionFollowsEdges(s: State, a: Action, t: State)
    ensures Transition(s, a) == Some(t) <==> (s, a, t) in Edges
  {
  }

  /** The guards one by one: each forward action from its one source state,
      cancel from all but `Completed`, reopen only from `Cancelled`. */
  lemma Guards(s: State)
    ensures Transition(s, Confirm).Some? <==> s == Draft
    ensures Transition(s, Start).Some? <==> s == Confirmed
    ensures Transition(s, Complete).Some? <==> s == InProgress
    ensures Transition(s, Cancel).Some? <==> s != Completed
    ensures Transition(s, SetToDraft).Some? <==> s == Cancelled
  {
  }

  /** Applies actions in turn; `None` at the first one that raises. */
  function Run(s: State, actions: seq<Action>): Option<State>
    decreases |actions|
  {
    if actions == [] then Some(s)
    else match Transition(s, actions[0])
      case None => None
      case Some(t) => Run(t, actions[1..])
  }

  /** `Completed` is final: no non-empty run of actions leaves it. */
  lemma {:induction false} CompletedIsFinal(actions: seq<Action>)
    ensures Run(Completed, actions) == Some(Completed) <==> actions == []
    ensures actions != [] ==> Run(Completed, actions) == None
  {
    if actions != [] {
      assert Transition(Completed, actions[0]) == None;
    }
  }

  /** Completion cannot skip a step: a run that ends in `Completed` from a
      state before `InProgress` performed `Start`, and from `Draft` or
      `Cancelled` also `Confirm`; every run into `Completed` from another
      state performed `Complete`. */
  lemma {:induction false} CompletionNeedsEveryStep(s: State, actions: seq<Action>)
    requires Run(s, actions) == Some(Completed)
    decreases |actions|
    ensures s != Completed ==> Complete in actions
    ensures s !in {Completed, InProgress} ==> Start in actions
    ensures s !in {Completed, InProgress, Confirmed} ==> Confirm in actions
  {
    if actions != [] {
      var t := Transition(s, actions[0]).value;
      CompletionNeedsEveryStep(t, actions[1..]);
      assert actions == [actions[0]] + actions[1..];
    }
  }

  /** Cancelling and then reopening brings any record that is not completed
      back to `Draft`. */
  lemma CancelThenReopen(s: State)
    requires s != Completed
    ensures Run(s, [Cancel, SetToDraft]) == Some(Draft)
  {
    assert [Cancel, SetToDraft][1..] == [SetToDraft];
    assert [SetToDraft][1..] == [];
  }
}
