/** The in-process progress hub (`ProgressHub`): bounded subscriber queues, a replay cache, and one
    heartbeat task for each job whose latest stage is not terminal. */
module ProgressHub {
  import opened Options

  datatype Kind = StageChange | Heartbeat | Other

  datatype Event = Event(kind: Kind, job: Option<int>, status: string, payload: string)

  const QUEUE_MAX: nat := 256

  predicate Terminal(status: string) {
    status == "completed" || status == "failed" || status == "cancelled"
  }

  // ---- one subscriber queue ----

  /** A full queue loses its oldest event. */
  function Push(items: seq<Event>, e: Event): seq<Event> {
    if |items| < QUEUE_MAX then items + [e] else items[1..] + [e]
  }

  ghost predicate Suffix(items: seq<Event>, published: seq<Event>) {
    |items| <= |published| && items == published[|published| - |items|..]
  }

  lemma {:induction false} PushKeepsSuffix(items: seq<Event>, published: seq<Event>, e: Event)
    requires |items| <= QUEUE_MAX && Suffix(items, published)
    ensures |Push(items, e)| <= QUEUE_MAX && Suffix(Push(items, e), published + [e])
    ensures Push(items, e) != [] && Push(items, e)[|Push(items, e)| - 1] == e
  {
    var next, all := Push(items, e), published + [e];
    forall k | 0 <= k < |next| ensures next[k] == all[|all| - |next| + k] {
    }
  }

  /** What can happen to a queue. */
  datatype QueueOp = Arrive(e: Event) | Take

  function Items(ops: seq<QueueOp>): seq<Event> {
    if ops == [] then []
    else
      var before := Items(ops[..|ops| - 1]);
      match ops[|ops| - 1]
      case Arrive(e) => Push(before, e)
      case Take => if before == [] then [] else before[1..]
  }

  function Arrived(ops: seq<QueueOp>): seq<Event> {
    if ops == [] then []
    else
      var before := Arrived(ops[..|ops| - 1]);
      match ops[|ops| - 1]
      case Arrive(e) => before + [e]
      case Take => before
  }

  /** Over any run of arrivals and reads, a queue holds the latest contiguous stretch of what arrived,
      at most 256 events, and the newest event right after it arrived. */
  lemma {:induction false} QueueHoldsLatest(ops: seq<QueueOp>)
    ensures |Items(ops)| <= QUEUE_MAX && Suffix(Items(ops), Arrived(ops))
    ensures ops != [] && ops[|ops| - 1].Arrive? ==>
              Items(ops) != [] && Items(ops)[|Items(ops)| - 1] == ops[|ops| - 1].e
  {
    if ops != [] {
      var init := ops[..|ops| - 1];
      QueueHoldsLatest(init);
      match ops[|ops| - 1]
      case Arrive(e) => PushKeepsSuffix(Items(init), Arrived(init), e);
      case Take =>
    }
  }

  /** A reader that never reads loses exactly the oldest events beyond 256. */
  lemma {:induction false} UnreadQueueKeepsLast(ops: seq<QueueOp>)
    requires forall k :: 0 <= k < |ops| ==> ops[k].Arrive?
    ensures |Arrived(ops)| == |ops|
    ensures |Items(ops)| == if |ops| < QUEUE_MAX then |ops| else QUEUE_MAX
    ensures Suffix(Items(ops), Arrived(ops))
  {
    QueueHoldsLatest(ops);
    if ops != [] {
      UnreadQueueKeepsLast(ops[..|ops| - 1]);
    }
  }

  class Queue {
    var items: seq<Event>
    ghost var published: seq<Event>

    ghost predicate Valid()
      reads this
    {
      |items| <= QUEUE_MAX && Suffix(items, published)
    }

    constructor ()
      ensures Valid() && items == [] && published == []
    {
      items, published := [], [];
    }

    /** `put_nowait`, evicting the oldest event when full. */
    method Put(e: Event)
      requires Valid()
      modifies this
      ensures Valid()
      ensures items == Push(old(items), e) && published == old(published) + [e]
    {
      PushKeepsSuffix(items, published, e);
      if |items| == QUEUE_MAX {
        items := items[1..];
      }
      items := items + [e];
      published := published + [e];
    }

    /** `get_nowait`. */
    method Get() returns (e: Option<Event>)
      requires Valid()
      modifies this
      ensures Valid() && published == old(published)
      ensures old(items) == [] ==> e.None? && items == []
      ensures old(items) != [] ==> e == Some(old(items)[0]) && items == old(items)[1..]
    {
      if items == [] {
        return None;
      }
      e := Some(items[0]);
      items := items[1..];
    }
  }

  /** A running heartbeat loop. */
  class Task {
    const job: int
    var cancelled: bool

    constructor (job: int)
      ensures this.job == job && !cancelled
    {
      this.job, cancelled := job, false;
    }

    method Cancel()
      modifies this
      ensures cancelled
    {
      cancelled := true;
    }
  }

  // ---- which queue is registered where ----

  /** The feeds and the record of where each queue lives say the same. */
  ghost predicate Consistent<Q>(globalFeed: set<Q>, perJob: map<int, set<Q>>, home: map<Q, Option<int>>) {
    && (forall q :: q in globalFeed ==> q in home && home[q] == None)
    && (forall q :: q in home && home[q] == None ==> q in globalFeed)
    && (forall j, q {:trigger q in perJob[j]} :: j in perJob && q in perJob[j] ==> q in home && home[q] == Some(j))
    && (forall q :: q in home && home[q].Some? ==> home[q].value in perJob && q in perJob[home[q].value])
    && (forall j :: j in perJob ==> perJob[j] != {})
  }

  lemma {:induction false} MemberAtHome<Q>(globalFeed: set<Q>, perJob: map<int, set<Q>>, home: map<Q, Option<int>>,
                                           job: int, q: Q)
    requires Consistent(globalFeed, perJob, home) && job in perJob
    ensures q in perJob[job] <==> q in home && home[q] == Some(job)
  {
  }

  /** `setdefault(job, set()).add(q)`. */
  function Joined<Q>(perJob: map<int, set<Q>>, job: int, q: Q): map<int, set<Q>> {
    perJob[job := (if job in perJob then perJob[job] else {}) + {q}]
  }

  lemma {:induction false} RegisterKeeps<Q>(globalFeed: set<Q>, perJob: map<int, set<Q>>, home: map<Q, Option<int>>,
                                            q: Q, job: Option<int>)
    requires Consistent(globalFeed, perJob, home) && q !in home
    ensures Consistent(if job.None? then globalFeed + {q} else globalFeed,
                       if job.None? then perJob else Joined(perJob, job.value, q),
                       home[q := job])
  {
  }

  lemma {:induction false} UnregisterGlobal<Q>(globalFeed: set<Q>, perJob: map<int, set<Q>>, home: map<Q, Option<int>>,
                                               q: Q)
    requires Consistent(globalFeed, perJob, home)
    ensures Consistent(globalFeed - {q}, perJob, if q in home && home[q] == None then home - {q} else home)
  {
  }

  lemma {:induction false} UnregisterJob<Q>(globalFeed: set<Q>, perJob: map<int, set<Q>>, home: map<Q, Option<int>>,
                                            q: Q, job: int)
    requires Consistent(globalFeed, perJob, home) && job in perJob
    ensures var subs := perJob[job] - {q};
            Consistent(globalFeed, if subs == {} then perJob - {job} else perJob[job := subs],
                       if q in home && home[q] == Some(job) then home - {q} else home)
  {
    var subs := perJob[job] - {q};
    forall p | p in home && home[p] == Some(job) && p != q ensures p in subs {
      MemberAtHome(globalFeed, perJob, home, job, p);
    }
  }

  lemma {:induction false} NobodyHome<Q>(globalFeed: set<Q>, perJob: map<int, set<Q>>, home: map<Q, Option<int>>, q: Q,
                                         job: int)
    requires Consistent(globalFeed, perJob, home) && job !in perJob
    ensures q in home ==> home[q] != Some(job)
  {
  }

  class Hub {
    var globalFeed: set<Queue>
    var perJob: map<int, set<Queue>>
    var latestStage: map<int, Event>
    var latestHeartbeat: map<int, Event>
    var heartbeats: map<int, Task>
    /** Every registered queue with the feed it is registered in, and every task ever started. */
    ghost var home: map<Queue, Option<int>>
    ghost var tasks: set<Task>

    /** Each queue sits in exactly one feed and holds a legal stretch of its events. */
    ghost predicate FeedsOk()
      reads this`globalFeed, this`perJob, this`home, home.Keys
    {
      RegistryOk() && forall q :: q in home ==> q.Valid()
    }

    ghost predicate RegistryOk()
      reads this`globalFeed, this`perJob, this`home
    {
      Consistent(globalFeed, perJob, home)
    }

    /** A job is still running as far as the hub knows. */
    ghost predicate Active(job: int)
      reads this`latestStage
    {
      job in latestStage && !Terminal(latestStage[job].status)
    }

    /** A job has a heartbeat task exactly when its latest stage is known and not terminal, and the
        tasks not yet cancelled are exactly those: never two for one job. */
    ghost predicate HeartbeatsOk()
      reads this`heartbeats, this`latestStage, this`tasks, tasks
    {
      && (forall j :: j in heartbeats <==> Active(j))
      && (forall j :: j in heartbeats ==> heartbeats[j] in tasks && heartbeats[j].job == j && !heartbeats[j].cancelled)
      && (forall t :: t in tasks && !t.cancelled ==> t.job in heartbeats && heartbeats[t.job] == t)
    }

    ghost predicate Valid()
      reads this`globalFeed, this`perJob, this`home, home.Keys
      reads this`heartbeats, this`latestStage, this`tasks, tasks
    {
      FeedsOk() && HeartbeatsOk()
    }

    constructor ()
      ensures Valid() && home == map[] && tasks == {}
    {
      globalFeed, perJob := {}, map[];
      latestStage, latestHeartbeat, heartbeats := map[], map[], map[];
      home, tasks := map[], {};
    }

    method Subscribe(job: Option<int>) returns (queue: Queue)
      requires Valid()
      modifies this`globalFeed, this`perJob, this`home
      ensures Valid() && fresh(queue) && queue.items == []
      ensures home == old(home)[queue := job]
    {
      hide Consistent, Joined;
      queue := new Queue();
      RegisterKeeps(globalFeed, perJob, home, queue, job);
      if job.None? {
        globalFeed := globalFeed + {queue};
      } else {
        perJob := Joined(perJob, job.value, queue);
      }
      home := home[queue := job];
      assert RegistryOk();
      assert HeartbeatsOk();
      forall q | q in home ensures q.Valid() {
        assert q != queue ==> q in old(home) && old(q.Valid());
      }
    }

    /** Leaves the named feed, and nothing happens if the queue is not in it. */
    method Unsubscribe(queue: Queue, job: Option<int>)
      requires Valid()
      modifies this`globalFeed, this`perJob, this`home
      ensures Valid()
      ensures home == if queue in old(home) && old(home)[queue] == job then old(home) - {queue} else old(home)
    {
      hide Consistent, HeartbeatsOk;
      if job.None? {
        UnregisterGlobal(globalFeed, perJob, home, queue);
        globalFeed := globalFeed - {queue};
      } else if job.value in perJob {
        UnregisterJob(globalFeed, perJob, home, queue, job.value);
        var subs := perJob[job.value] - {queue};
        perJob := if subs == {} then perJob - {job.value} else perJob[job.value := subs];
      } else {
        NobodyHome(globalFeed, perJob, home, queue, job.value);
      }
      home := if queue in home && home[queue] == job then home - {queue} else home;
    }

    /** The queues an event goes to: the global feed and the feed of its job. */
    ghost predicate Receives(queue: Queue, e: Event)
      reads this`home
    {
      queue in home && (home[queue].None? || home[queue] == e.job)
    }

    /** The target list of an event. */
    function Targets(e: Event): set<Queue>
      reads this`globalFeed, this`perJob
    {
      globalFeed + if e.job.Some? && e.job.value in perJob then perJob[e.job.value] else {}
    }

    lemma {:induction false} TargetsReceive(e: Event, q: Queue)
      requires RegistryOk()
      ensures q in Targets(e) <==> Receives(q, e)
    {
      if e.job.Some? && e.job.value in perJob {
        MemberAtHome(globalFeed, perJob, home, e.job.value, q);
      }
    }

    method Fanout(e: Event)
      requires Valid()
      modifies home.Keys
      ensures Valid()
      ensures forall q :: q in home ==>
                            if Receives(q, e) then q.items == Push(old(q.items), e)
                                && q.published == old(q.published) + [e]
                            else q.items == old(q.items) && q.published == old(q.published)
    {
      hide Consistent, HeartbeatsOk;
      var targets := Targets(e);
      ghost var all := targets;
      forall q ensures q in all <==> Receives(q, e) {
        TargetsReceive(e, q);
      }
      while targets != {}
        invariant targets <= all
        invariant forall q :: q in home ==> q.Valid()
        invariant forall q :: q in home && (q in targets || q !in all)
                    ==> q.items == old(q.items) && q.published == old(q.published)
        invariant forall q :: q in all && q !in targets ==>
                                q.items == Push(old(q.items), e) && q.published == old(q.published) + [e]
        decreases targets
      {
        var queue :| queue in targets;
        assert Receives(queue, e);
        queue.Put(e);
        targets := targets - {queue};
      }
    }

    /** Stops the task of a terminal job and drops its heartbeat; starts a task for a job without one. */
    method SyncHeartbeatTask(job: int, status: string)
      requires FeedsOk()
      requires job in latestStage && latestStage[job].status == status
      requires forall j :: j != job ==> (j in heartbeats <==> Active(j))
      requires forall j :: j in heartbeats
                 ==> heartbeats[j] in tasks && heartbeats[j].job == j && !heartbeats[j].cancelled
      requires forall t :: t in tasks && !t.cancelled ==> t.job in heartbeats && heartbeats[t.job] == t
      modifies this`heartbeats, this`latestHeartbeat, this`tasks, tasks
      ensures Valid()
      ensures tasks >= old(tasks) && fresh(tasks - old(tasks))
      ensures latestHeartbeat == if Terminal(status) then old(latestHeartbeat) - {job} else old(latestHeartbeat)
      ensures forall j :: j in heartbeats && j in old(heartbeats) ==> heartbeats[j] == old(heartbeats[j])
      ensures forall q :: q in home ==> q.items == old(q.items) && q.published == old(q.published)
    {
      if Terminal(status) {
        if job in heartbeats {
          var task := heartbeats[job];
          heartbeats := heartbeats - {job};
          task.Cancel();
        }
        latestHeartbeat := latestHeartbeat - {job};
        return;
      }
      if job in heartbeats {
        return;
      }
      var task := new Task(job);
      heartbeats := heartbeats[job := task];
      tasks := tasks + {task};
    }

    /** Caches the event, keeps the heartbeat tasks in step, and delivers it. */
    method Publish(e: Event)
      requires Valid()
      modifies this, home.Keys, tasks
      ensures Valid() && home == old(home)
      ensures tasks >= old(tasks) && fresh(tasks - old(tasks))
      ensures forall q :: q in home ==>
                            if Receives(q, e) then q.items == Push(old(q.items), e)
                                && q.published == old(q.published) + [e]
                            else q.items == old(q.items) && q.published == old(q.published)
      ensures latestStage ==
                if e.kind.StageChange? && e.job.Some? then old(latestStage)[e.job.value := e] else old(latestStage)
      ensures latestHeartbeat ==
              if e.job.Some? && e.kind.StageChange? && Terminal(e.status) then old(latestHeartbeat) - {e.job.value}
              else if e.job.Some? && e.kind.Heartbeat? then old(latestHeartbeat)[e.job.value := e]
              else old(latestHeartbeat)
      ensures forall j :: j in heartbeats && j in old(heartbeats) ==> heartbeats[j] == old(heartbeats[j])
      ensures globalFeed == old(globalFeed) && perJob == old(perJob)
    {
      if e.job.Some? {
        if e.kind.StageChange? {
          latestStage := latestStage[e.job.value := e];
          SyncHeartbeatTask(e.job.value, e.status);
        } else if e.kind.Heartbeat? {
          latestHeartbeat := latestHeartbeat[e.job.value := e];
        }
      }
      Fanout(e);
    }

    /** One turn of a job's heartbeat loop: publishes a heartbeat built from the latest stage. */
    method Beat(job: int)
      requires Valid() && job in heartbeats
      modifies this, home.Keys, tasks
      ensures Valid() && home == old(home) && latestStage == old(latestStage)
      ensures var e := Event(Heartbeat, Some(job), old(latestStage)[job].status, old(latestStage)[job].payload);
              && latestHeartbeat == old(latestHeartbeat)[job := e]
              && forall q :: q in home ==>
                   if home[q].None? || home[q] == Some(job)
                   then q.items == Push(old(q.items), e) && q.published == old(q.published) + [e]
                   else q.items == old(q.items) && q.published == old(q.published)
    {
      Publish(Event(Heartbeat, Some(job), latestStage[job].status, latestStage[job].payload));
    }

    /** Drops a deleted job's caches and stops its task. */
    method Forget(job: int)
      requires Valid()
      modifies this`heartbeats, this`latestStage, this`latestHeartbeat, tasks
      ensures Valid()
      ensures latestStage == old(latestStage) - {job} && latestHeartbeat == old(latestHeartbeat) - {job}
      ensures job !in heartbeats
      ensures forall j :: j != job && j in old(heartbeats) ==> j in heartbeats && heartbeats[j] == old(heartbeats[j])
    {
      if job in heartbeats {
        var task := heartbeats[job];
        heartbeats := heartbeats - {job};
        task.Cancel();
      }
      latestStage := latestStage - {job};
      latestHeartbeat := latestHeartbeat - {job};
    }
  }
}
