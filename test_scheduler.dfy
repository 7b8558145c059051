/**
 * `TestScheduler`, the instrumented `Scheduler` of the instrumented tests: it counts the
 * immediate and repeating tasks still running, calls a finished callback when that count
 * drops to zero, and keeps network-deferred tasks in a list until the test runs them.
 */
module TestSchedulerModel {
  import opened Wrappers
  import opened Seqs

  /** A `TaskSpec`; `name` tells specs apart, the work it describes is not modelled. */
  datatype TaskSpec = TaskSpec(name: string)

  /** `DeferredTask`: `repeatPeriod` is null for a task deferred once. */
  datatype DeferredTask = DeferredTask(tag: string, spec: TaskSpec, repeatPeriod: Option<int>)

  /** The entries `cancelDeferred(tag)` keeps, as a filter. */
  function OtherTag(tag: string): DeferredTask -> bool {
    (t: DeferredTask) => t.tag != tag
  }

  /** The entries with `tag`, as a filter. */
  function WithTag(tag: string): DeferredTask -> bool {
    (t: DeferredTask) => t.tag == tag
  }

  /** The entries `runDeferredTasks` keeps: those with a repeat period. */
  function Repeating(): DeferredTask -> bool {
    (t: DeferredTask) => t.repeatPeriod.Some?
  }

  /** The specs of the entries, in list order: what `runDeferredTasks` runs. */
  function Specs(tasks: seq<DeferredTask>): (specs: seq<TaskSpec>)
    ensures |specs| == |tasks|
    ensures forall k :: 0 <= k < |tasks| ==> specs[k] == tasks[k].spec
  {
    seq(|tasks|, k requires 0 <= k < |tasks| => tasks[k].spec)
  }

  /** The list after the repeating `networkDeferred(tag, spec, period)`. */
  function Rescheduled(tasks: seq<DeferredTask>, tag: string, spec: TaskSpec, period: int): seq<DeferredTask> {
    Filter(tasks, OtherTag(tag)) + [DeferredTask(tag, spec, Some(period))]
  }

  /**
   * Rescheduling a tag leaves exactly one entry with it, the new one, at the end; the entries
   * of every other tag keep their order.
   */
  lemma {:induction false} RescheduledReplaces(tasks: seq<DeferredTask>, tag: string, spec: TaskSpec, period: int)
    ensures var r := Rescheduled(tasks, tag, spec, period);
      && r[|r| - 1] == DeferredTask(tag, spec, Some(period))
      && (forall k :: 0 <= k < |r| ==> (r[k].tag == tag <==> k == |r| - 1))
      && Filter(r, WithTag(tag)) == [DeferredTask(tag, spec, Some(period))]
  {
    var kept := Filter(tasks, OtherTag(tag));
    var r := kept + [DeferredTask(tag, spec, Some(period))];
    forall k | 0 <= k < |kept|
      ensures r[k].tag != tag
    {
      assert r[k] == kept[k] && kept[k] in kept;
    }
    FilterConcat(kept, [DeferredTask(tag, spec, Some(period))], WithTag(tag));
    FilterNone(kept, WithTag(tag));
    FilterSingleton(DeferredTask(tag, spec, Some(period)), WithTag(tag));
  }

  /** Cancelling one tag does not reorder or drop the entries of another. */
  lemma {:induction false} CancelKeepsOtherTags(tasks: seq<DeferredTask>, tag: string, other: string)
    requires other != tag
    ensures Filter(Filter(tasks, OtherTag(tag)), WithTag(other)) == Filter(tasks, WithTag(other))
  {
    FilterFilter(tasks, OtherTag(tag), WithTag(other), WithTag(other));
  }

  /**
   * After a run only the repeating entries are left. A second run with nothing deferred in
   * between keeps all of them and runs exactly the specs of the repeating entries of the
   * first list.
   */
  lemma {:induction false} RunKeepsRepeating(tasks: seq<DeferredTask>)
    ensures var kept := Filter(tasks, Repeating());
      && Filter(kept, Repeating()) == kept
      && (forall t :: t in kept <==> t in tasks && t.repeatPeriod.Some?)
      && (forall s :: s in Specs(kept) <==> exists t :: t in tasks && t.repeatPeriod.Some? && t.spec == s)
  {
    var kept := Filter(tasks, Repeating());
    FilterAll(kept, Repeating());
    forall s | s in Specs(kept)
      ensures exists t :: t in tasks && t.repeatPeriod.Some? && t.spec == s
    {
      var k :| 0 <= k < |kept| && Specs(kept)[k] == s;
      assert kept[k] in kept;
    }
    forall s | exists t :: t in tasks && t.repeatPeriod.Some? && t.spec == s
      ensures s in Specs(kept)
    {
      var t :| t in tasks && t.repeatPeriod.Some? && t.spec == s;
      assert t in kept;
      var k :| 0 <= k < |kept| && kept[k] == t;
      assert Specs(kept)[k] == s;
    }
  }

  class TestScheduler {
    /** `tasks`: scheduled tasks minus completions */
    var tasks: int
    /** whether a finished callback is set (`finishedCallback != null`) */
    var hasFinishedCallback: bool
    /** how many times the finished callback has run */
    var finishedCalls: nat
    var deferredTasks: seq<DeferredTask>
    /** the specs whose tasks `runDeferredTasks` has run, in order */
    var ranSpecs: seq<TaskSpec>

    constructor()
      ensures tasks == 0 && !hasFinishedCallback && finishedCalls == 0
      ensures deferredTasks == [] && ranSpecs == []
    {
      tasks := 0;
      hasFinishedCallback := false;
      finishedCalls := 0;
      deferredTasks := [];
      ranSpecs := [];
    }

    /**
     * `increment`, which `immediate` and `repeat` call as they hand the task to the wrapped
     * scheduler; the wrapped runnable ends with `decrement`.
     */
    method Increment()
      modifies this
      ensures tasks == old(tasks) + 1
      ensures finishedCalls == old(finishedCalls) && hasFinishedCallback == old(hasFinishedCallback)
      ensures deferredTasks == old(deferredTasks) && ranSpecs == old(ranSpecs)
    {
      tasks := tasks + 1;
    }

    /** `decrement`: the callback runs exactly when the count reaches zero and one is set. */
    method Decrement()
      modifies this
      ensures tasks == old(tasks) - 1
      ensures finishedCalls == old(finishedCalls) + (if tasks == 0 && hasFinishedCallback then 1 else 0)
      ensures hasFinishedCallback == old(hasFinishedCallback)
      ensures deferredTasks == old(deferredTasks) && ranSpecs == old(ranSpecs)
    {
      tasks := tasks - 1;
      if tasks == 0 && hasFinishedCallback {
        finishedCalls := finishedCalls + 1;
      }
    }

    /** `setFinishedCallback`; a null callback is `present == false`. */
    method SetFinishedCallback(present: bool)
      modifies this
      ensures hasFinishedCallback == present
      ensures tasks == old(tasks) && finishedCalls == old(finishedCalls)
      ensures deferredTasks == old(deferredTasks) && ranSpecs == old(ranSpecs)
    {
      hasFinishedCallback := present;
    }

    /** `getTaskCount`. */
    method GetTaskCount() returns (count: int)
      ensures count == tasks
    {
      count := tasks;
    }

    /** `networkDeferred(tag, spec)`: a one-off entry is appended; earlier entries with the tag stay. */
    method NetworkDeferred(tag: string, spec: TaskSpec)
      modifies this
      ensures deferredTasks == old(deferredTasks) + [DeferredTask(tag, spec, None)]
      ensures tasks == old(tasks) && finishedCalls == old(finishedCalls)
      ensures hasFinishedCallback == old(hasFinishedCallback) && ranSpecs == old(ranSpecs)
    {
      deferredTasks := deferredTasks + [DeferredTask(tag, spec, None)];
    }

    /** `networkDeferred(tag, spec, repeatPeriod)`: the tag's entries are cancelled, then the new one is appended. */
    method NetworkDeferredRepeating(tag: string, spec: TaskSpec, repeatPeriod: int)
      modifies this
      ensures deferredTasks == Rescheduled(old(deferredTasks), tag, spec, repeatPeriod)
      ensures tasks == old(tasks) && finishedCalls == old(finishedCalls)
      ensures hasFinishedCallback == old(hasFinishedCallback) && ranSpecs == old(ranSpecs)
    {
      CancelDeferred(tag);
      deferredTasks := deferredTasks + [DeferredTask(tag, spec, Some(repeatPeriod))];
    }

    /** `cancelDeferred`: exactly the entries with the tag are removed, the rest keep their order. */
    method CancelDeferred(tag: string)
      modifies this
      ensures deferredTasks == Filter(old(deferredTasks), OtherTag(tag))
      ensures tasks == old(tasks) && finishedCalls == old(finishedCalls)
      ensures hasFinishedCallback == old(hasFinishedCallback) && ranSpecs == old(ranSpecs)
    {
      deferredTasks := Filter(deferredTasks, OtherTag(tag));
    }

    /** `runDeferredTasks`: every entry's task runs, in list order; then only repeating entries remain. */
    method RunDeferredTasks()
      modifies this
      ensures ranSpecs == old(ranSpecs) + Specs(old(deferredTasks))
      ensures deferredTasks == Filter(old(deferredTasks), Repeating())
      ensures tasks == old(tasks) && finishedCalls == old(finishedCalls)
      ensures hasFinishedCallback == old(hasFinishedCallback)
    {
      var pending := deferredTasks;
      var ran := ranSpecs;
      var i := 0;
      while i < |pending|
        invariant 0 <= i <= |pending|
        invariant ran == old(ranSpecs) + Specs(pending[..i])
        modifies {}
      {
        assert Specs(pending[..i + 1]) == Specs(pending[..i]) + [pending[i].spec];
        ran := ran + [pending[i].spec];
        i := i + 1;
      }
      assert pending[..i] == pending;
      ranSpecs := ran;
      deferredTasks := Filter(pending, Repeating());
    }
  }
}
