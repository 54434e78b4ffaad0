/**
 * The step indicator above the enrollment card: each step's circle is
 * completed (green, with a check), current (blue) or pending (grey) by
 * comparing its id with the current step; a connector follows every step but
 * the last and is green once that step is completed.
 */
module ProgressSteps {
  import opened Wrappers

  datatype Step = Step(id: int, title: string, description: string)

  datatype StepStatus = Completed | Current | Pending

  /** The status of the step with id `id` when `currentStep` is shown. */
  function Classify(id: int, currentStep: int): (s: StepStatus)
    ensures s == Completed <==> id < currentStep
    ensures s == Current <==> id == currentStep
    ensures s == Pending <==> id > currentStep
  {
    if id < currentStep then Completed else if id == currentStep then Current else Pending
  }

  /**
   * What is drawn for one step: its status, whether the circle holds a check,
   * whether title and description are in the dark colour, and the connector
   * after it (`None` for the last step, `Some(green)` otherwise).
   */
  datatype StepView = StepView(status: StepStatus, showsCheck: bool, highlighted: bool, connector: Option<bool>)

  function RenderStep(steps: seq<Step>, index: nat, currentStep: int): StepView
    requires index < |steps|
  {
    var id := steps[index].id;
    StepView(
      Classify(id, currentStep),
      id < currentStep,
      id <= currentStep,
      if index < |steps| - 1 then Some(id < currentStep) else None)
  }

  /** The whole indicator for `steps` with `currentStep` current. */
  function Render(steps: seq<Step>, currentStep: int): (views: seq<StepView>)
    ensures |views| == |steps|
    ensures forall i :: 0 <= i < |steps| ==>
      && views[i].status == Classify(steps[i].id, currentStep)
      && (views[i].showsCheck <==> views[i].status == Completed)
      && (views[i].highlighted <==> views[i].status != Pending)
      && (views[i].connector.Some? <==> i < |steps| - 1)
      && (views[i].connector == Some(true) <==> i < |steps| - 1 && views[i].status == Completed)
  {
    seq(|steps|, i requires 0 <= i < |steps| => RenderStep(steps, i, currentStep))
  }

  /** How many of `views` have status `s`. */
  function CountStatus(views: seq<StepView>, s: StepStatus): (n: nat)
    ensures n <= |views|
  {
    if views == [] then 0
    else (if views[0].status == s then 1 else 0) + CountStatus(views[1..], s)
  }

  predicate DistinctIds(steps: seq<Step>) {
    forall i, j :: 0 <= i < j < |steps| ==> steps[i].id != steps[j].id
  }

  lemma {:induction false} NoCurrentCountsZero(views: seq<StepView>)
    requires forall i :: 0 <= i < |views| ==> views[i].status != Current
    ensures CountStatus(views, Current) == 0
  {
    if views != [] {
      NoCurrentCountsZero(views[1..]);
    }
  }

  lemma {:induction false} AtMostOneCurrentView(views: seq<StepView>)
    requires forall i, j :: 0 <= i < j < |views| ==> !(views[i].status == Current && views[j].status == Current)
    ensures CountStatus(views, Current) <= 1
  {
    if views != [] {
      if views[0].status == Current {
        forall i | 0 <= i < |views[1..]|
          ensures views[1..][i].status != Current
        {
          assert views[1..][i] == views[i + 1];
        }
        NoCurrentCountsZero(views[1..]);
      } else {
        AtMostOneCurrentView(views[1..]);
      }
    }
  }

  /** With distinct step ids, at most one step is shown as current. */
  lemma AtMostOneCurrent(steps: seq<Step>, currentStep: int)
    requires DistinctIds(steps)
    ensures CountStatus(Render(steps, currentStep), Current) <= 1
  {
    AtMostOneCurrentView(Render(steps, currentStep));
  }

  function Rank(s: StepStatus): nat {
    match s
    case Completed => 0
    case Current => 1
    case Pending => 2
  }

  /** With increasing ids the indicator reads completed steps, then the current one, then pending ones. */
  lemma StatusesInOrder(steps: seq<Step>, currentStep: int, i: nat, j: nat)
    requires i <= j < |steps| && steps[i].id <= steps[j].id
    ensures Rank(Render(steps, currentStep)[i].status) <= Rank(Render(steps, currentStep)[j].status)
  {
  }

  /** How many of the ids `k`, `k + 1`, ..., `k + n - 1` lie below `c`. */
  function Below(k: int, n: nat, c: int): (m: nat)
    ensures m <= n
  {
    if c <= k then 0 else if c - k >= n then n else c - k
  }

  lemma {:induction false} ConsecutiveCounts(views: seq<StepView>, k: int, c: int)
    requires forall i :: 0 <= i < |views| ==> views[i].status == Classify(k + i, c)
    ensures CountStatus(views, Completed) == Below(k, |views|, c)
    ensures CountStatus(views, Current) == if k <= c < k + |views| then 1 else 0
  {
    if views != [] {
      forall i | 0 <= i < |views[1..]|
        ensures views[1..][i].status == Classify(k + 1 + i, c)
      {
        assert views[1..][i] == views[i + 1];
      }
      ConsecutiveCounts(views[1..], k + 1, c);
    }
  }

  /**
   * Steps numbered 1, 2, ..., n with step `c` current: exactly one step is
   * current and the `c - 1` steps before it are completed.
   */
  lemma NumberedStepsShowOneCurrent(steps: seq<Step>, c: int)
    requires forall i :: 0 <= i < |steps| ==> steps[i].id == i + 1
    requires 1 <= c <= |steps|
    ensures CountStatus(Render(steps, c), Current) == 1
    ensures CountStatus(Render(steps, c), Completed) == c - 1
  {
    ConsecutiveCounts(Render(steps, c), 1, c);
  }
}
