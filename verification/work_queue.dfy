/**
 * The coalescing work queue of `Dialog` (src/ui/dialog.hpp:73-106): the
 * front job is the one running; behind it waits at most one job, the one
 * asked for last.
 *
 * Running a job on the thread pool (`QtConcurrent::run` with the future
 * watcher) is recorded as the job being appended to `started`.
 */
module WorkQueues {

  class WorkQueue<Job> {
    /** `work_queue_`: the running job, then the pending one. */
    var queue: seq<Job>
    /** Every job handed to the thread pool, in order. */
    var started: seq<Job>

    /** At most one job waits, and the front job is the one started last. */
    ghost predicate Valid()
      reads this
    {
      |queue| <= 2 &&
      (queue != [] ==> started != [] && started[|started| - 1] == queue[0])
    }

    /** Nothing queued and nothing started. */
    constructor ()
      ensures queue == [] && started == []
      ensures Valid()
    {
      queue := [];
      started := [];
    }

    /**
     * `run_or_enqueue` (src/ui/dialog.hpp:73-92): a job still waiting is
     * dropped (never the running front), the new job goes at the back, and
     * it is started at once when nothing else is queued.
     */
    method RunOrEnqueue(job: Job)
      requires Valid()
      modifies this
      ensures queue == (if |old(queue)| > 1 then old(queue[..|queue| - 1]) else old(queue)) + [job]
      ensures started == old(started) + (if old(queue) == [] then [job] else [])
      ensures old(queue) != [] ==> queue[0] == old(queue[0])
      ensures Valid()
    {
      if |queue| > 1 {
        queue := queue[..|queue| - 1];
      }
      queue := queue + [job];
      if |queue| == 1 {
        started := started + [queue[0]];
      }
    }

    /**
     * `dequeue_and_run` (src/ui/dialog.hpp:94-104), called when the running
     * job is done: it leaves the queue, and the waiting job, if any, starts.
     * On an empty queue nothing happens.
     */
    method DequeueAndRun()
      requires Valid()
      modifies this
      ensures queue == (if old(queue) == [] then [] else old(queue[1..]))
      ensures started == old(started) + (if |old(queue)| > 1 then [old(queue[1])] else [])
      ensures Valid()
    {
      if queue != [] {
        queue := queue[1..];
        if queue != [] {
          started := started + [queue[0]];
        }
      }
    }
  }
}
