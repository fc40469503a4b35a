/** The task life cycle (`statemachine.ts`) and what every legal sequence of states obeys. */
module TaskLifecycle {
  datatype TaskState =
    | Draft | Ready | Planned | InProgress | Review | Qa | Security | Approval | Deploying | Deployed
    | Monitoring | Completed | Blocked | Failed | RollbackRequired | Cancelled

  function Flow(from: TaskState): seq<TaskState> {
    match from
    case Draft => [Ready, Cancelled]
    case Ready => [Planned, Blocked, Cancelled]
    case Planned => [InProgress, Blocked, Cancelled]
    case InProgress => [Review, Failed, Blocked, Cancelled]
    case Review => [Qa, InProgress, Failed, Cancelled]
    case Qa => [Security, InProgress, Failed, Cancelled]
    case Security => [Approval, InProgress, Failed]
    case Approval => [Deploying, InProgress, Cancelled]
    case Deploying => [Deployed, Failed, RollbackRequired]
    case Deployed => [Monitoring, RollbackRequired]
    case Monitoring => [Completed, RollbackRequired]
    case Completed => []
    case Blocked => [Ready, Planned, InProgress, Cancelled]
    case Failed => [Ready, Planned, InProgress, Cancelled]
    case RollbackRequired => [InProgress, Completed, Cancelled]
    case Cancelled => []
  }

  predicate CanTransition(from: TaskState, to: TaskState) {
    to in Flow(from)
  }

  /** The table read backwards: the states from which each state is entered. */
  function WaysIn(to: TaskState): set<TaskState> {
    match to
    case Draft => {}
    case Ready => {Draft, Blocked, Failed}
    case Planned => {Ready, Blocked, Failed}
    case InProgress => {Planned, Review, Qa, Security, Approval, Blocked, Failed, RollbackRequired}
    case Review => {InProgress}
    case Qa => {Review}
    case Security => {Qa}
    case Approval => {Security}
    case Deploying => {Approval}
    case Deployed => {Deploying}
    case Monitoring => {Deployed}
    case Completed => {Monitoring, RollbackRequired}
    case Blocked => {Ready, Planned, InProgress}
    case Failed => {InProgress, Review, Qa, Security, Deploying}
    case RollbackRequired => {Deploying, Deployed, Monitoring}
    case Cancelled => {Draft, Ready, Planned, InProgress, Review, Qa, Approval, Blocked, Failed, RollbackRequired}
  }

  lemma EnteredFrom(from: TaskState, to: TaskState)
    ensures CanTransition(from, to) <==> from in WaysIn(to)
  {
    if from in {Draft, Ready, Planned, InProgress, Review, Qa, Security, Approval} {
      EnteredEarly(from, to);
    } else {
      EnteredLate(from, to);
    }
  }

  lemma EnteredEarly(from: TaskState, to: TaskState)
    requires from in {Draft, Ready, Planned, InProgress, Review, Qa, Security, Approval}
    ensures CanTransition(from, to) <==> from in WaysIn(to)
  {
  }

  lemma EnteredLate(from: TaskState, to: TaskState)
    requires from in {Deploying, Deployed, Monitoring, Completed, Blocked, Failed, RollbackRequired, Cancelled}
    ensures CanTransition(from, to) <==> from in WaysIn(to)
  {
  }

  /** The states of a task on its way from `s` to `goal`. */
  ghost predicate IsWay(s: TaskState, way: seq<TaskState>, goal: TaskState) {
    way != [] && way[0] == s && way[|way| - 1] == goal && forall i :: 0 <= i < |way| - 1 ==> CanTransition(way[i], way[i + 1])
  }

  /** The straight way to completion, and how far it is. */
  function Onward(s: TaskState): (TaskState, nat) {
    match s
    case Draft => (Ready, 12)
    case Ready => (Planned, 11)
    case Planned | Blocked | Failed => (InProgress, 10)
    case InProgress => (Review, 9)
    case Review => (Qa, 8)
    case Qa => (Security, 7)
    case Security => (Approval, 6)
    case Approval => (Deploying, 5)
    case Deploying => (Deployed, 4)
    case Deployed => (Monitoring, 3)
    case Monitoring | RollbackRequired => (Completed, 2)
    case Completed | Cancelled => (s, 1)
  }

  lemma OnwardIsLegal(s: TaskState)
    requires s != Completed && s != Cancelled
    ensures CanTransition(s, Onward(s).0) && Onward(s).0 != Cancelled && Onward(Onward(s).0).1 < Onward(s).1
  {
  }

  /** No task is ever stuck: unless cancelled it can still be completed. */
  lemma {:induction false} CanStillComplete(s: TaskState) returns (way: seq<TaskState>)
    requires s != Cancelled
    ensures IsWay(s, way, Completed)
    decreases Onward(s).1
  {
    if s == Completed {
      way := [s];
    } else {
      OnwardIsLegal(s);
      var rest := CanStillComplete(Onward(s).0);
      way := [s] + rest;
    }
  }

  /** The states of a task from its creation on. */
  ghost predicate IsTrace(s: seq<TaskState>) {
    s != [] && s[0] == Draft && forall i :: 0 <= i < |s| - 1 ==> CanTransition(s[i], s[i + 1])
  }

  lemma TraceExtends(s: seq<TaskState>, to: TaskState)
    requires IsTrace(s) && CanTransition(s[|s| - 1], to)
    ensures IsTrace(s + [to])
  {
    var t := s + [to];
    forall i | 0 <= i < |t| - 1
      ensures CanTransition(t[i], t[i + 1])
    {
      if i < |s| - 1 {
        assert CanTransition(s[i], s[i + 1]);
      }
    }
  }

  /** Each of the gates before deployment has one way in. */
  lemma OneWayIn(a: TaskState, b: TaskState)
    requires CanTransition(a, b)
    ensures b == Deploying ==> a == Approval
    ensures b == Approval ==> a == Security
    ensures b == Security ==> a == Qa
    ensures b == Qa ==> a == Review
    ensures b == Review ==> a == InProgress
  {
  }

  lemma StepBefore(s: seq<TaskState>, i: nat)
    requires IsTrace(s) && i < |s| && s[i] != Draft
    ensures i > 0 && CanTransition(s[i - 1], s[i])
  {
    assert i > 0;
    assert CanTransition(s[i - 1], s[i - 1 + 1]);
  }

  function Gate(t: TaskState): TaskState {
    match t
    case Deploying => Approval
    case Approval => Security
    case Security => Qa
    case Qa => Review
    case _ => InProgress
  }

  lemma GateBefore(s: seq<TaskState>, i: nat)
    requires IsTrace(s) && i < |s| && s[i] in {Deploying, Approval, Security, Qa, Review}
    ensures i > 0 && s[i - 1] == Gate(s[i])
  {
    StepBefore(s, i);
    OneWayIn(s[i - 1], s[i]);
  }

  /** Deployment is always entered through work, review, QA, security and approval, in that order
      and with nothing in between. */
  lemma DeployingIsGated(s: seq<TaskState>, i: nat)
    requires IsTrace(s) && i < |s| && s[i] == Deploying
    ensures i >= 5 && s[i - 5..i] == [InProgress, Review, Qa, Security, Approval]
  {
    GateBefore(s, i);
    GateBefore(s, i - 1);
    GateBefore(s, i - 2);
    GateBefore(s, i - 3);
    GateBefore(s, i - 4);
  }

  predicate IsAfterDeployment(t: TaskState) {
    t == Deployed || t == Monitoring || t == RollbackRequired
  }

  lemma {:induction false} DeploymentBefore(s: seq<TaskState>, i: nat) returns (j: nat)
    requires IsTrace(s) && i < |s| && IsAfterDeployment(s[i])
    ensures j < i && s[j] == Deploying && forall k :: j < k <= i ==> IsAfterDeployment(s[k])
    decreases i
  {
    assert i > 0 && CanTransition(s[i - 1], s[i]);
    if s[i - 1] == Deploying {
      j := i - 1;
    } else {
      j := DeploymentBefore(s, i - 1);
    }
  }

  /** Completion follows a deployment with nothing but deployed, monitoring and rollback states between. */
  lemma CompletionFollowsDeployment(s: seq<TaskState>, i: nat) returns (j: nat)
    requires IsTrace(s) && i < |s| && s[i] == Completed
    ensures j < i && s[j] == Deploying && forall k :: j < k < i ==> IsAfterDeployment(s[k])
  {
    assert i > 0 && CanTransition(s[i - 1], s[i]);
    j := DeploymentBefore(s, i - 1);
  }

  /** Nothing follows completion or cancellation. */
  lemma FinalStatesEnd(s: seq<TaskState>, i: nat)
    requires IsTrace(s) && i < |s| && (s[i] == Completed || s[i] == Cancelled)
    ensures i == |s| - 1
  {
    if i < |s| - 1 {
      NoWayOut(s[i], s[i + 1]);
    }
  }

  lemma NoWayOut(a: TaskState, b: TaskState)
    requires a == Completed || a == Cancelled
    ensures !CanTransition(a, b)
  {
  }
}
