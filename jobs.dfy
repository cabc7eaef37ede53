/**
 * The job queue as the bot sees it: a list of named repeating jobs, looked
 * up by name (`get_jobs_by_name`) and removed by name.
 */
module Jobs {

  /** A repeating job: its name, its interval and the delay of its first run, in seconds (kept as data only). */
  datatype Job = Job(name: string, interval: nat, first: nat)

  const MonitoringJobName: string := "monitoring_job"

  /** The job `start_monitoring` schedules: every 120 seconds, first after 1 second. */
  const MonitoringJob: Job := Job(MonitoringJobName, 120, 1)

  /** `get_jobs_by_name(name)`: the jobs with that name, in queue order. */
  function Named(jobs: seq<Job>, name: string): seq<Job> {
    if jobs == [] then []
    else Named(jobs[..|jobs| - 1], name) + (if jobs[|jobs| - 1].name == name then [jobs[|jobs| - 1]] else [])
  }

  /** The queue once every job with that name has been removed. */
  function Without(jobs: seq<Job>, name: string): seq<Job> {
    if jobs == [] then []
    else Without(jobs[..|jobs| - 1], name) + (if jobs[|jobs| - 1].name != name then [jobs[|jobs| - 1]] else [])
  }

  /** The monitoring job is scheduled. */
  predicate Running(jobs: seq<Job>) {
    Named(jobs, MonitoringJobName) != []
  }

  /** A job is found by name exactly when one with that name is in the queue. */
  lemma {:induction false} NamedEmptyIff(jobs: seq<Job>, name: string)
    ensures Named(jobs, name) == [] <==> forall i :: 0 <= i < |jobs| ==> jobs[i].name != name
    decreases |jobs|
  {
    if jobs != [] {
      var front := jobs[..|jobs| - 1];
      NamedEmptyIff(front, name);
      assert forall i :: 0 <= i < |front| ==> front[i] == jobs[i];
    }
  }

  /** Splitting by name loses and invents nothing: the two parts together are the queue. */
  lemma {:induction false} NamedWithoutPartition(jobs: seq<Job>, name: string)
    ensures multiset(Named(jobs, name)) + multiset(Without(jobs, name)) == multiset(jobs)
    decreases |jobs|
  {
    if jobs != [] {
      var front := jobs[..|jobs| - 1];
      NamedWithoutPartition(front, name);
      assert jobs == front + [jobs[|jobs| - 1]];
    }
  }

  /** Every job found by name has that name. */
  lemma {:induction false} NamedHaveName(jobs: seq<Job>, name: string)
    ensures forall i :: 0 <= i < |Named(jobs, name)| ==> Named(jobs, name)[i].name == name
    decreases |jobs|
  {
    if jobs != [] {
      NamedHaveName(jobs[..|jobs| - 1], name);
    }
  }

  /** Removal is exhaustive: no job of that name is left. */
  lemma {:induction false} WithoutRemovesNamed(jobs: seq<Job>, name: string)
    ensures Named(Without(jobs, name), name) == []
    decreases |jobs|
  {
    if jobs != [] {
      var front := jobs[..|jobs| - 1];
      var last := jobs[|jobs| - 1];
      WithoutRemovesNamed(front, name);
      NamedAppend(Without(front, name), if last.name != name then [last] else [], name);
    }
  }

  /** Removal touches nothing else: the jobs of every other name stay, in order. */
  lemma {:induction false} WithoutKeepsOthers(jobs: seq<Job>, name: string, other: string)
    requires other != name
    ensures Named(Without(jobs, name), other) == Named(jobs, other)
    decreases |jobs|
  {
    if jobs != [] {
      var front := jobs[..|jobs| - 1];
      var last := jobs[|jobs| - 1];
      WithoutKeepsOthers(front, name, other);
      NamedAppend(Without(front, name), if last.name != name then [last] else [], other);
    }
  }

  /** Looking up by name distributes over concatenation. */
  lemma {:induction false} NamedAppend(a: seq<Job>, b: seq<Job>, name: string)
    ensures Named(a + b, name) == Named(a, name) + Named(b, name)
    decreases |b|
  {
    if b == [] {
      assert a + b == a;
    } else {
      var front := b[..|b| - 1];
      assert (a + b)[..|a + b| - 1] == a + front;
      NamedAppend(a, front, name);
    }
  }

  /** Scheduling the monitoring job on a queue without one leaves exactly one. */
  lemma StartAddsOne(jobs: seq<Job>)
    requires !Running(jobs)
    ensures Named(jobs + [MonitoringJob], MonitoringJobName) == [MonitoringJob]
    ensures Running(jobs + [MonitoringJob])
  {
    NamedAppend(jobs, [MonitoringJob], MonitoringJobName);
    assert [MonitoringJob][..0] == [];
  }
}
