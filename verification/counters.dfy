/** getAllCounterStates of tools/pcm/cpucounters.cpp: one task for every online core and
    one for every socket are pushed onto the queues of the cores, whose workers run them at the
    same time; package C-state counters are added atomically.  A state machine over single
    steps, in every interleaving. */
module CounterTasks {

  const WORD: int := 0x1_0000_0000_0000_0000

  type U64 = x: int | 0 <= x < WORD

  function Plus(a: U64, b: U64): U64 {
    (a + b) % WORD
  }

  type Counters = seq<U64>

  // operator += on counter states of the same layout.
  function Add(a: Counters, b: Counters): (r: Counters)
    requires |a| == |b|
    ensures |r| == |a| && forall i :: 0 <= i < |r| ==> r[i] == Plus(a[i], b[i])
  {
    seq(|a|, i requires 0 <= i < |a| => Plus(a[i], b[i]))
  }

  // An atomic addition to counter i.
  function Bump(a: Counters, i: nat, x: U64): (r: Counters)
    requires i < |a|
  {
    a[i := Plus(a[i], x)]
  }

  function Zeros(n: nat): (r: Counters)
    ensures |r| == n && forall i :: 0 <= i < n ==> r[i] == 0
  {
    seq(n, _ => 0)
  }

  /** The machine: where each core is, which core stands for a socket (-1 for none), and what
      the registers will read.  Core counters, C-state counters and uncore counters
      have one fixed layout each. */
  datatype Config = Config(
    online: seq<bool>,
    socketOf: seq<nat>,
    refCore: seq<int>,
    basic: nat,
    cstates: nat,
    uncore: nat,
    coreSample: seq<Counters>,
    cstateSample: seq<Counters>,
    socketSample: seq<Counters>
  ) {
    function Cores(): nat { |online| }
    function Sockets(): nat { |refCore| }

    ghost predicate Ok() {
      && |socketOf| == Cores() && |coreSample| == Cores() && |cstateSample| == Cores() && |socketSample| == Sockets()
      && Cores() > 0 && cstates > 0
      && (forall c :: 0 <= c < Cores() ==>
            (online[c] ==> socketOf[c] < Sockets()) && |coreSample[c]| == basic && |cstateSample[c]| == cstates)
      && (forall s :: 0 <= s < Sockets() ==> -1 <= refCore[s] < Cores() && |socketSample[s]| == uncore)
    }
  }

  datatype Task = CoreTask(core: nat) | SocketTask(socket: nat)

  datatype Push = Push(queue: nat, task: Task)

  // The pushes of the main thread, in its order.
  function CorePushes(cfg: Config, n: nat): seq<Push>
    requires n <= cfg.Cores()
  {
    if n == 0 then []
    else CorePushes(cfg, n - 1) + (if cfg.online[n - 1] then [Push(n - 1, CoreTask(n - 1))] else [])
  }

  function SocketPushes(cfg: Config, n: nat): seq<Push>
    requires n <= cfg.Sockets()
  {
    if n == 0 then []
    else SocketPushes(cfg, n - 1) + [Push(if cfg.refCore[n - 1] < 0 then 0 else cfg.refCore[n - 1], SocketTask(n - 1))]
  }

  function Pushes(cfg: Config): seq<Push> {
    CorePushes(cfg, cfg.Cores()) + SocketPushes(cfg, cfg.Sockets())
  }

  /** pushed counts the pushes of the main thread so far.  A worker runs what stands first
      in its queue; at is how many steps of it have been made, and log what it has finished. */
  datatype State = State(
    pushed: nat,
    queue: seq<seq<Task>>,
    at: seq<nat>,
    log: seq<seq<Task>>,
    core: seq<Counters>,
    cstate: seq<Counters>,
    uncore: seq<Counters>
  )

  ghost function Start(cfg: Config): State {
    State(0, seq(cfg.Cores(), _ => []), seq(cfg.Cores(), _ => 0), seq(cfg.Cores(), _ => []),
          seq(cfg.Cores(), _ => Zeros(cfg.basic)), seq(cfg.Sockets(), _ => Zeros(cfg.cstates)),
          seq(cfg.Sockets(), _ => Zeros(cfg.uncore)))
  }

  predicate Sized(cfg: Config, s: State) {
    && |s.queue| == |s.at| == |s.log| == |s.core| == cfg.Cores()
    && |s.cstate| == |s.uncore| == cfg.Sockets()
    && (forall c :: 0 <= c < cfg.Cores() ==> |s.core[c]| == cfg.basic)
    && (forall k :: 0 <= k < cfg.Sockets() ==> |s.cstate[k]| == cfg.cstates && |s.uncore[k]| == cfg.uncore)
  }

  // The main thread pushes its next task.
  ghost predicate MainStep(cfg: Config, s: State, s': State)
    requires Sized(cfg, s)
  {
    s.pushed < |Pushes(cfg)| &&
    var p := Pushes(cfg)[s.pushed];
    p.queue < cfg.Cores() &&
    s' == s.(pushed := s.pushed + 1, queue := s.queue[p.queue := s.queue[p.queue] + [p.task]])
  }

  function Steps(cfg: Config, t: Task): nat {
    if t.CoreTask? then 1 + cfg.cstates else 1
  }

  // What step n of task t does to the counters: a core task reads its own core, then adds
  // the C-state counters of its socket one by one; a socket task reads its socket.
  ghost predicate Effect(cfg: Config, t: Task, n: nat, s: State, s': State)
    requires Sized(cfg, s) && cfg.Ok()
  {
    match t
    case CoreTask(c) =>
      c < cfg.Cores() && cfg.online[c] &&
      if n == 0 then
        s'.core == s.core[c := Add(s.core[c], cfg.coreSample[c])] && s'.cstate == s.cstate && s'.uncore == s.uncore
      else
        var k := cfg.socketOf[c];
        && n <= cfg.cstates && s'.core == s.core && s'.uncore == s.uncore
        && s'.cstate == s.cstate[k := Bump(s.cstate[k], n - 1, cfg.cstateSample[c][n - 1])]
    case SocketTask(k) =>
      && k < cfg.Sockets() && s'.core == s.core && s'.cstate == s.cstate
      && s'.uncore == s.uncore[k := Add(s.uncore[k], cfg.socketSample[k])]
  }

  // The worker of queue q makes one step of the first entry, and takes it off after the last.
  ghost predicate WorkerStep(cfg: Config, q: nat, s: State, s': State)
    requires Sized(cfg, s) && cfg.Ok()
  {
    q < cfg.Cores() && s.queue[q] != [] &&
    var t := s.queue[q][0];
    && Effect(cfg, t, s.at[q], s, s') && s'.pushed == s.pushed
    && (if s.at[q] + 1 < Steps(cfg, t) then
          s'.at == s.at[q := s.at[q] + 1] && s'.queue == s.queue && s'.log == s.log
        else
          s'.at == s.at[q := 0] && s'.queue == s.queue[q := s.queue[q][1..]] && s'.log == s.log[q := s.log[q] + [t]])
  }

  ghost predicate Next(cfg: Config, s: State, s': State)
    requires cfg.Ok()
  {
    Sized(cfg, s) && (MainStep(cfg, s, s') || exists q: nat :: WorkerStep(cfg, q, s, s'))
  }

  // All futures are ready.
  predicate Ready(cfg: Config, s: State) {
    s.pushed == |Pushes(cfg)| && forall q :: 0 <= q < |s.queue| ==> s.queue[q] == []
  }

  ghost predicate Run(cfg: Config, trace: seq<State>)
    requires cfg.Ok()
  {
    && |trace| > 0 && trace[0] == Start(cfg)
    && forall i :: 0 <= i < |trace| - 1 ==> Next(cfg, trace[i], trace[i + 1])
  }

  // ----- the invariant -----

  // The tasks that were pushed onto queue q, in order.
  function For(ps: seq<Push>, q: nat): seq<Task> {
    if ps == [] then []
    else
      var n := |ps| - 1;
      For(ps[..n], q) + (if ps[n].queue == q then [ps[n].task] else [])
  }

  // How many steps of task t of queue q have been made.
  function Done(cfg: Config, s: State, q: nat, t: Task): nat
    requires q < |s.log| && q < |s.queue| && q < |s.at|
  {
    if t in s.log[q] then Steps(cfg, t)
    else if s.queue[q] != [] && s.queue[q][0] == t then s.at[q]
    else 0
  }

  // What core c has added to C-state counter i of socket k so far, and what all cores
  // below n have.
  ghost function Part(cfg: Config, s: State, k: nat, i: nat, c: nat): U64
    requires cfg.Ok() && Sized(cfg, s) && k < cfg.Sockets() && i < cfg.cstates && c < cfg.Cores()
  {
    if cfg.online[c] && cfg.socketOf[c] == k && Done(cfg, s, c, CoreTask(c)) > i + 1 then cfg.cstateSample[c][i] else 0
  }

  ghost function Parts(cfg: Config, s: State, k: nat, i: nat, n: nat): nat
    requires cfg.Ok() && Sized(cfg, s) && k < cfg.Sockets() && i < cfg.cstates && n <= cfg.Cores()
  {
    if n == 0 then 0 else Parts(cfg, s, k, i, n - 1) + Part(cfg, s, k, i, n - 1)
  }

  function RefQueue(cfg: Config, k: nat): nat
    requires k < cfg.Sockets()
  {
    if cfg.refCore[k] < 0 then 0 else cfg.refCore[k]
  }

  // Which tasks can be in which queue.
  predicate Belongs(cfg: Config, q: nat, t: Task) {
    match t
    case CoreTask(c) => c == q && c < cfg.Cores() && cfg.online[c]
    case SocketTask(k) => k < cfg.Sockets() && q == RefQueue(cfg, k)
  }

  predicate Distinct(ts: seq<Task>) {
    forall i, j :: 0 <= i < j < |ts| ==> ts[i] != ts[j]
  }

  // Each queue holds what was pushed onto it and is not finished, in order.
  ghost predicate QueuesOk(cfg: Config, s: State)
    requires Sized(cfg, s) && s.pushed <= |Pushes(cfg)|
  {
    && (forall q :: 0 <= q < cfg.Cores() ==> s.log[q] + s.queue[q] == For(Pushes(cfg)[..s.pushed], q))
    && (forall q :: 0 <= q < cfg.Cores() ==>
          if s.queue[q] == [] then s.at[q] == 0 else s.at[q] < Steps(cfg, s.queue[q][0]))
  }

  ghost predicate CoresOk(cfg: Config, s: State)
    requires cfg.Ok() && Sized(cfg, s)
  {
    forall c :: 0 <= c < cfg.Cores() ==>
      s.core[c] == if Done(cfg, s, c, CoreTask(c)) > 0 then cfg.coreSample[c] else Zeros(cfg.basic)
  }

  ghost predicate UncoreOk(cfg: Config, s: State)
    requires cfg.Ok() && Sized(cfg, s)
  {
    forall k :: 0 <= k < cfg.Sockets() ==>
      s.uncore[k] == if Done(cfg, s, RefQueue(cfg, k), SocketTask(k)) > 0 then cfg.socketSample[k] else Zeros(cfg.uncore)
  }

  // Every counter is the sum, modulo 2^64, of what was added to it.
  ghost predicate CstatesOk(cfg: Config, s: State)
    requires cfg.Ok() && Sized(cfg, s)
  {
    forall k, i :: 0 <= k < cfg.Sockets() && 0 <= i < cfg.cstates ==>
      s.cstate[k][i] == Parts(cfg, s, k, i, cfg.Cores()) % WORD
  }

  ghost predicate Inv(cfg: Config, s: State)
    requires cfg.Ok()
  {
    && Sized(cfg, s) && s.pushed <= |Pushes(cfg)|
    && QueuesOk(cfg, s) && CoresOk(cfg, s) && UncoreOk(cfg, s) && CstatesOk(cfg, s)
  }

  // ----- the queues -----

  lemma {:induction false} CorePushesAre(cfg: Config, n: nat)
    requires cfg.Ok() && n <= cfg.Cores()
    ensures forall j :: 0 <= j < |CorePushes(cfg, n)| ==>
      var p := CorePushes(cfg, n)[j]; p.task == CoreTask(p.queue) && p.queue < n && cfg.online[p.queue]
    ensures forall i, j :: 0 <= i < j < |CorePushes(cfg, n)| ==> CorePushes(cfg, n)[i].queue < CorePushes(cfg, n)[j].queue
  {
    if n > 0 { CorePushesAre(cfg, n - 1); }
  }

  lemma {:induction false} CorePushed(cfg: Config, n: nat, c: nat)
    requires cfg.Ok() && c < n <= cfg.Cores() && cfg.online[c]
    ensures Push(c, CoreTask(c)) in CorePushes(cfg, n)
  {
    if c < n - 1 {
      CorePushed(cfg, n - 1, c);
    } else {
      var ps := CorePushes(cfg, n);
      assert ps[|ps| - 1] == Push(c, CoreTask(c));
    }
  }

  lemma {:induction false} SocketPushesAre(cfg: Config, n: nat)
    requires cfg.Ok() && n <= cfg.Sockets()
    ensures |SocketPushes(cfg, n)| == n
    ensures forall j :: 0 <= j < n ==> SocketPushes(cfg, n)[j] == Push(RefQueue(cfg, j), SocketTask(j))
  {
    if n > 0 { SocketPushesAre(cfg, n - 1); }
  }

  // Push j of the main thread.
  lemma PushAt(cfg: Config, j: nat)
    requires cfg.Ok() && j < |Pushes(cfg)|
    ensures var p := Pushes(cfg)[j]; p.queue < cfg.Cores() && Belongs(cfg, p.queue, p.task)
    ensures var a := CorePushes(cfg, cfg.Cores());
      if j < |a| then Pushes(cfg)[j] == a[j] && a[j].task == CoreTask(a[j].queue)
      else j - |a| < cfg.Sockets() && Pushes(cfg)[j].task == SocketTask(j - |a|)
  {
    CorePushesAre(cfg, cfg.Cores());
    SocketPushesAre(cfg, cfg.Sockets());
    hide CorePushes, SocketPushes;
  }

  lemma PushesDiffer(cfg: Config, i: nat, j: nat)
    requires cfg.Ok() && i < j < |Pushes(cfg)|
    ensures Pushes(cfg)[i].task != Pushes(cfg)[j].task
  {
    PushAt(cfg, i);
    PushAt(cfg, j);
    CorePushesAre(cfg, cfg.Cores());
    hide Pushes, CorePushes, Belongs;
  }

  lemma CoreIsPushed(cfg: Config, c: nat)
    requires cfg.Ok() && c < cfg.Cores() && cfg.online[c]
    ensures Push(c, CoreTask(c)) in Pushes(cfg)
  {
    CorePushed(cfg, cfg.Cores(), c);
    hide CorePushes, SocketPushes;
  }

  lemma SocketIsPushed(cfg: Config, k: nat)
    requires cfg.Ok() && k < cfg.Sockets()
    ensures Push(RefQueue(cfg, k), SocketTask(k)) in Pushes(cfg)
  {
    SocketPushesAre(cfg, cfg.Sockets());
    hide CorePushes, SocketPushes, RefQueue;
    var a, b := CorePushes(cfg, cfg.Cores()), SocketPushes(cfg, cfg.Sockets());
    assert (a + b)[|a| + k] == b[k];
  }

  // Every task is pushed once, onto the queue it belongs to.
  lemma PushesAre(cfg: Config)
    requires cfg.Ok()
    ensures forall j :: 0 <= j < |Pushes(cfg)| ==>
      Pushes(cfg)[j].queue < cfg.Cores() && Belongs(cfg, Pushes(cfg)[j].queue, Pushes(cfg)[j].task)
    ensures forall i, j :: 0 <= i < j < |Pushes(cfg)| ==> Pushes(cfg)[i].task != Pushes(cfg)[j].task
    ensures forall c :: 0 <= c < cfg.Cores() && cfg.online[c] ==> Push(c, CoreTask(c)) in Pushes(cfg)
    ensures forall k :: 0 <= k < cfg.Sockets() ==> Push(RefQueue(cfg, k), SocketTask(k)) in Pushes(cfg)
  {
    hide Pushes, Belongs, RefQueue;
    forall j | 0 <= j < |Pushes(cfg)|
      ensures Pushes(cfg)[j].queue < cfg.Cores() && Belongs(cfg, Pushes(cfg)[j].queue, Pushes(cfg)[j].task)
    {
      PushAt(cfg, j);
    }
    forall i, j | 0 <= i < j < |Pushes(cfg)|
      ensures Pushes(cfg)[i].task != Pushes(cfg)[j].task
    {
      PushesDiffer(cfg, i, j);
    }
    forall c | 0 <= c < cfg.Cores() && cfg.online[c]
      ensures Push(c, CoreTask(c)) in Pushes(cfg)
    {
      CoreIsPushed(cfg, c);
    }
    forall k | 0 <= k < cfg.Sockets()
      ensures Push(RefQueue(cfg, k), SocketTask(k)) in Pushes(cfg)
    {
      SocketIsPushed(cfg, k);
    }
  }

  predicate Earlier(t: Task, u: Task) {
    match t
    case CoreTask(c) => u.CoreTask? ==> c < u.core
    case SocketTask(k) => u.SocketTask? && k < u.socket
  }

  // A core's task goes to its own thread, a socket's to that of its reference core, or to the first if it has none.
  predicate Wanted(cfg: Config, p: Push) {
    match p.task
    case CoreTask(c) => c < cfg.Cores() && cfg.online[c] && p.queue == c
    case SocketTask(k) => k < cfg.Sockets() && p.queue == if cfg.refCore[k] < 0 then 0 else cfg.refCore[k]
  }

  /** Exactly these tasks are pushed: those of the online cores in ascending order, then those of the sockets. */
  lemma PushesInOrder(cfg: Config)
    requires cfg.Ok()
    ensures forall p :: p in Pushes(cfg) <==> Wanted(cfg, p)
    ensures forall i, j :: 0 <= i < j < |Pushes(cfg)| ==> Earlier(Pushes(cfg)[i].task, Pushes(cfg)[j].task)
  {
    hide Pushes;
    PushesAre(cfg);
    forall p
      ensures p in Pushes(cfg) <==> Wanted(cfg, p)
    {
      if p in Pushes(cfg) {
        var j :| 0 <= j < |Pushes(cfg)| && Pushes(cfg)[j] == p;
        assert Belongs(cfg, p.queue, p.task);
      }
    }
    forall i, j | 0 <= i < j < |Pushes(cfg)|
      ensures Earlier(Pushes(cfg)[i].task, Pushes(cfg)[j].task)
    {
      PushAt(cfg, i);
      PushAt(cfg, j);
      CorePushesAre(cfg, cfg.Cores());
    }
  }

  lemma {:induction false} ForIn(ps: seq<Push>, q: nat, t: Task)
    ensures t in For(ps, q) <==> Push(q, t) in ps
  {
    if ps != [] {
      var n := |ps| - 1;
      ForIn(ps[..n], q, t);
      assert ps == ps[..n] + [ps[n]];
    }
  }

  lemma {:induction false} ForDistinct(ps: seq<Push>, q: nat)
    requires forall i, j :: 0 <= i < j < |ps| ==> ps[i].task != ps[j].task
    ensures Distinct(For(ps, q))
  {
    if ps != [] {
      var n := |ps| - 1;
      ForDistinct(ps[..n], q);
      if ps[n].queue == q {
        ForIn(ps[..n], q, ps[n].task);
      }
    }
  }

  // What was pushed onto queue q are its own tasks, each once, and the next push is new.
  lemma PushedFacts(cfg: Config, n: nat, q: nat)
    requires cfg.Ok() && n <= |Pushes(cfg)|
    ensures Distinct(For(Pushes(cfg)[..n], q))
    ensures forall t :: t in For(Pushes(cfg)[..n], q) ==> Belongs(cfg, q, t)
    ensures n < |Pushes(cfg)| ==>
      var p := Pushes(cfg)[n];
      p.queue < cfg.Cores() && Belongs(cfg, p.queue, p.task) && (p.queue == q ==> p.task !in For(Pushes(cfg)[..n], q))
  {
    PushesAre(cfg);
    var all := Pushes(cfg);
    var ps := all[..n];
    hide Belongs, Pushes;
    ForDistinct(ps, q);
    forall t | t in For(ps, q)
      ensures Belongs(cfg, q, t) && (n < |all| ==> t != all[n].task)
    {
      ForIn(ps, q, t);
      var j :| 0 <= j < n && ps[j] == Push(q, t);
      assert all[j] == Push(q, t);
    }
  }

  lemma SplitDistinct(a: seq<Task>, b: seq<Task>)
    requires Distinct(a + b)
    ensures forall t :: t in b ==> t !in a
    ensures b != [] ==> b[0] !in a && b[0] !in b[1..]
  {
    forall t | t in b
      ensures t !in a
    {
      var i :| 0 <= i < |b| && b[i] == t;
      assert (a + b)[|a| + i] == t;
      forall j | 0 <= j < |a|
        ensures a[j] != t
      {
        assert (a + b)[j] == a[j];
      }
    }
    if b != [] {
      forall j | 0 <= j < |b[1..]|
        ensures b[1..][j] != b[0]
      {
        assert (a + b)[|a|] == b[0] && (a + b)[|a| + 1 + j] == b[1..][j];
      }
    }
  }

  // What is in queue q or has been run from it: its own tasks, each once.
  lemma QueueFacts(cfg: Config, s: State, q: nat)
    requires cfg.Ok() && Inv(cfg, s) && q < cfg.Cores()
    ensures forall t :: t in s.queue[q] ==> Belongs(cfg, q, t) && t !in s.log[q]
    ensures forall t :: t in s.log[q] ==> Belongs(cfg, q, t)
    ensures s.queue[q] != [] ==> s.queue[q][0] !in s.queue[q][1..]
    ensures s.pushed < |Pushes(cfg)| ==>
      var p := Pushes(cfg)[s.pushed];
      && p.queue < cfg.Cores() && Belongs(cfg, p.queue, p.task)
      && (p.queue == q ==> p.task !in s.log[q] && p.task !in s.queue[q])
  {
    PushedFacts(cfg, s.pushed, q);
    var a, b := s.log[q], s.queue[q];
    assert a + b == For(Pushes(cfg)[..s.pushed], q);
    hide Inv, Pushes, For, Belongs, Distinct;
    SplitDistinct(a, b);
    assert forall t :: t in a ==> t in a + b;
    assert forall t :: t in b ==> t in a + b;
  }

  // ----- one step -----

  // A push adds a task of which no step has been made.
  lemma MainDone(cfg: Config, s: State, s': State, q: nat, t: Task)
    requires cfg.Ok() && Inv(cfg, s) && MainStep(cfg, s, s') && q < cfg.Cores()
    ensures Done(cfg, s', q, t) == Done(cfg, s, q, t)
  {
    QueueFacts(cfg, s, q);
    var p := Pushes(cfg)[s.pushed];
    if p.queue == q && s.queue[q] == [] {
      assert s.at[q] == 0;
    }
  }

  // Where a task stands after a step at the front f of log a and queue b: as before, but for f.
  lemma FrontDone(a: seq<Task>, b: seq<Task>, t: Task)
    requires b != [] && b[0] !in a && b[0] !in b[1..]
    ensures t in a + [b[0]] <==> t in a || t == b[0]
    ensures b[1..] != [] ==> b[1..][0] != b[0] && b[1..][0] in b
  {
  }

  // A worker's step adds one to the steps of the first entry of its queue, and to nothing else.
  lemma WorkerDone(cfg: Config, w: nat, s: State, s': State, q: nat, t: Task)
    requires cfg.Ok() && Inv(cfg, s) && WorkerStep(cfg, w, s, s') && Sized(cfg, s') && q < cfg.Cores()
    ensures Done(cfg, s', q, t) == Done(cfg, s, q, t) + (if q == w && t == s.queue[w][0] then 1 else 0)
    ensures Done(cfg, s, w, s.queue[w][0]) == s.at[w] < Steps(cfg, s.queue[w][0])
  {
    QueueFacts(cfg, s, w);
    FrontDone(s.log[w], s.queue[w], t);
    AtFront(cfg, s, w);
    hide For, Pushes, Effect, Belongs, Inv, Steps;
    if q != w {
      assert s'.log[q] == s.log[q] && s'.queue[q] == s.queue[q] && s'.at[q] == s.at[q];
    }
  }

  lemma AtFront(cfg: Config, s: State, q: nat)
    requires cfg.Ok() && Inv(cfg, s) && q < cfg.Cores() && s.queue[q] != []
    ensures s.at[q] < Steps(cfg, s.queue[q][0])
  {
    hide For, Pushes, Steps;
  }

  lemma {:induction false} PartsSame(cfg: Config, s: State, s': State, k: nat, i: nat, n: nat)
    requires cfg.Ok() && Sized(cfg, s) && Sized(cfg, s') && k < cfg.Sockets() && i < cfg.cstates && n <= cfg.Cores()
    requires forall c :: 0 <= c < n ==> Part(cfg, s', k, i, c) == Part(cfg, s, k, i, c)
    ensures Parts(cfg, s', k, i, n) == Parts(cfg, s, k, i, n)
  {
    if n > 0 { PartsSame(cfg, s, s', k, i, n - 1); }
  }

  lemma {:induction false} PartsOne(cfg: Config, s: State, s': State, k: nat, i: nat, n: nat, c: nat)
    requires cfg.Ok() && Sized(cfg, s) && Sized(cfg, s') && k < cfg.Sockets() && i < cfg.cstates && c < n <= cfg.Cores()
    requires forall d :: 0 <= d < n && d != c ==> Part(cfg, s', k, i, d) == Part(cfg, s, k, i, d)
    ensures Parts(cfg, s', k, i, n) == Parts(cfg, s, k, i, n) + Part(cfg, s', k, i, c) - Part(cfg, s, k, i, c)
  {
    if c == n - 1 {
      PartsSame(cfg, s, s', k, i, n - 1);
    } else {
      PartsOne(cfg, s, s', k, i, n - 1, c);
    }
  }

  lemma ForNext(ps: seq<Push>, n: nat, q: nat)
    requires n < |ps|
    ensures For(ps[..n + 1], q) == For(ps[..n], q) + (if ps[n].queue == q then [ps[n].task] else [])
  {
    assert ps[..n + 1][..n] == ps[..n] && ps[..n + 1][n] == ps[n];
  }

  lemma MainQueue(cfg: Config, s: State, s': State, q: nat)
    requires cfg.Ok() && Inv(cfg, s) && MainStep(cfg, s, s') && q < cfg.Cores()
    ensures s'.pushed == s.pushed + 1 <= |Pushes(cfg)|
    ensures q < |s'.log| && q < |s'.queue| && s'.log[q] + s'.queue[q] == For(Pushes(cfg)[..s.pushed + 1], q)
  {
    hide For, Pushes;
    ForNext(Pushes(cfg), s.pushed, q);
    var p := Pushes(cfg)[s.pushed];
    if q == p.queue {
      assert s.log[q] + (s.queue[q] + [p.task]) == (s.log[q] + s.queue[q]) + [p.task];
    }
  }

  lemma MainAt(cfg: Config, s: State, s': State)
    requires cfg.Ok() && Inv(cfg, s) && MainStep(cfg, s, s')
    ensures Sized(cfg, s') && s'.pushed == s.pushed + 1 <= |Pushes(cfg)|
    ensures forall q :: 0 <= q < cfg.Cores() ==> if s'.queue[q] == [] then s'.at[q] == 0 else s'.at[q] < Steps(cfg, s'.queue[q][0])
  {
    hide For, Pushes;
  }

  lemma MainQueues(cfg: Config, s: State, s': State)
    requires cfg.Ok() && Inv(cfg, s) && MainStep(cfg, s, s')
    ensures Sized(cfg, s') && QueuesOk(cfg, s')
  {
    MainAt(cfg, s, s');
    hide Pushes, For, Inv, MainStep, Steps;
    forall q: nat | q < cfg.Cores()
      ensures s'.log[q] + s'.queue[q] == For(Pushes(cfg)[..s'.pushed], q)
    {
      MainQueue(cfg, s, s', q);
    }
  }

  lemma MainKeeps(cfg: Config, s: State, s': State)
    requires cfg.Ok() && Inv(cfg, s) && MainStep(cfg, s, s')
    ensures Inv(cfg, s')
  {
    MainQueues(cfg, s, s');
    hide QueuesOk, Pushes;
    forall q: nat, t | q < cfg.Cores()
      ensures Done(cfg, s', q, t) == Done(cfg, s, q, t)
    {
      MainDone(cfg, s, s', q, t);
    }
    assert CoresOk(cfg, s');
    assert UncoreOk(cfg, s');
    forall k, i | 0 <= k < cfg.Sockets() && 0 <= i < cfg.cstates
      ensures s'.cstate[k][i] == Parts(cfg, s', k, i, cfg.Cores()) % WORD
    {
      PartsSame(cfg, s, s', k, i, cfg.Cores());
    }
  }

  lemma WorkerQueues(cfg: Config, w: nat, s: State, s': State)
    requires cfg.Ok() && Inv(cfg, s) && WorkerStep(cfg, w, s, s') && Sized(cfg, s')
    ensures QueuesOk(cfg, s')
  {
    hide For, Pushes, Effect;
    forall q | 0 <= q < cfg.Cores()
      ensures s'.log[q] + s'.queue[q] == s.log[q] + s.queue[q]
    {
      if q == w {
        var b := s.queue[w];
        assert b == [b[0]] + b[1..];
        assert (s.log[w] + [b[0]]) + b[1..] == s.log[w] + ([b[0]] + b[1..]);
      }
    }
  }

  lemma AddZeros(n: nat, x: Counters)
    requires |x| == n
    ensures Add(Zeros(n), x) == x
  {
  }

  lemma WorkerCores(cfg: Config, w: nat, s: State, s': State)
    requires cfg.Ok() && Inv(cfg, s) && WorkerStep(cfg, w, s, s') && Sized(cfg, s')
    ensures CoresOk(cfg, s')
  {
    QueueFacts(cfg, s, w);
    var f := s.queue[w][0];
    hide QueuesOk, UncoreOk, CstatesOk, Pushes, Done, Add, Zeros;
    WorkerDone(cfg, w, s, s', w, f);
    forall c | 0 <= c < cfg.Cores()
      ensures s'.core[c] == if Done(cfg, s', c, CoreTask(c)) > 0 then cfg.coreSample[c] else Zeros(cfg.basic)
    {
      WorkerDone(cfg, w, s, s', c, CoreTask(c));
      if f == CoreTask(c) {
        AddZeros(cfg.basic, cfg.coreSample[c]);
      }
    }
  }

  lemma WorkerUncore(cfg: Config, w: nat, s: State, s': State)
    requires cfg.Ok() && Inv(cfg, s) && WorkerStep(cfg, w, s, s') && Sized(cfg, s')
    ensures UncoreOk(cfg, s')
  {
    QueueFacts(cfg, s, w);
    var f := s.queue[w][0];
    hide QueuesOk, CoresOk, CstatesOk, Pushes, Done, Add, Zeros;
    WorkerDone(cfg, w, s, s', w, f);
    forall k | 0 <= k < cfg.Sockets()
      ensures s'.uncore[k] ==
        if Done(cfg, s', RefQueue(cfg, k), SocketTask(k)) > 0 then cfg.socketSample[k] else Zeros(cfg.uncore)
    {
      WorkerDone(cfg, w, s, s', RefQueue(cfg, k), SocketTask(k));
      if f == SocketTask(k) {
        AddZeros(cfg.uncore, cfg.socketSample[k]);
      }
    }
  }

  // The step adds at most its own sample to what core c has added.
  lemma WorkerPart(cfg: Config, w: nat, s: State, s': State, k: nat, i: nat, c: nat)
    requires cfg.Ok() && Inv(cfg, s) && WorkerStep(cfg, w, s, s') && Sized(cfg, s')
    requires k < cfg.Sockets() && i < cfg.cstates && c < cfg.Cores()
    ensures Part(cfg, s', k, i, c) == Part(cfg, s, k, i, c) + Added(cfg, s.queue[w][0], s.at[w], k, i, c)
  {
    var t := s.queue[w][0];
    InQueue(cfg, s, w);
    hide Inv, Pushes, Done, Effect;
    WorkerDone(cfg, w, s, s', c, CoreTask(c));
  }

  // What step n of task t adds to C-state counter i of socket k on behalf of core c.
  ghost function Added(cfg: Config, t: Task, n: nat, k: nat, i: nat, c: nat): U64
    requires cfg.Ok() && i < cfg.cstates && c < cfg.Cores()
  {
    if t == CoreTask(c) && cfg.online[c] && cfg.socketOf[c] == k && n == i + 1 then cfg.cstateSample[c][i] else 0
  }

  lemma InQueue(cfg: Config, s: State, w: nat)
    requires cfg.Ok() && Inv(cfg, s) && w < cfg.Cores() && s.queue[w] != []
    ensures Belongs(cfg, w, s.queue[w][0])
  {
    QueueFacts(cfg, s, w);
    hide Inv, Belongs;
  }

  lemma BumpedSum(cfg: Config, w: nat, s: State, s': State, k: nat, i: nat)
    requires cfg.Ok() && Sized(cfg, s) && WorkerStep(cfg, w, s, s') && Sized(cfg, s')
    requires k < cfg.Sockets() && i < cfg.cstates && Belongs(cfg, w, s.queue[w][0])
    requires s.cstate[k][i] == Parts(cfg, s, k, i, cfg.Cores()) % WORD
    ensures s'.cstate[k][i] == (Parts(cfg, s, k, i, cfg.Cores()) + Added(cfg, s.queue[w][0], s.at[w], k, i, w)) % WORD
  {
    hide Parts;
  }

  lemma CstateAt(cfg: Config, s: State, k: nat, i: nat)
    requires cfg.Ok() && Inv(cfg, s) && k < cfg.Sockets() && i < cfg.cstates
    ensures Sized(cfg, s) && |s.queue| == |s.at| == cfg.Cores() && |s.cstate| == cfg.Sockets() && |s.cstate[k]| == cfg.cstates
    ensures s.cstate[k][i] == Parts(cfg, s, k, i, cfg.Cores()) % WORD
  {
    hide Parts, Done, QueuesOk, CoresOk, UncoreOk, Pushes;
  }

  // The queue of the worker of a step.
  lemma WorkerAt(cfg: Config, w: nat, s: State, s': State)
    requires cfg.Ok() && Sized(cfg, s) && WorkerStep(cfg, w, s, s')
    ensures w < cfg.Cores() == |s.queue| && s.queue[w] != []
  {
    hide Effect, Steps;
  }

  // What the cores other than that of the worker have added is as before.
  lemma WorkerParts(cfg: Config, w: nat, s: State, s': State, k: nat, i: nat)
    requires cfg.Ok() && Inv(cfg, s) && WorkerStep(cfg, w, s, s') && Sized(cfg, s')
    requires k < cfg.Sockets() && i < cfg.cstates
    ensures Parts(cfg, s', k, i, cfg.Cores()) ==
      Parts(cfg, s, k, i, cfg.Cores()) + Added(cfg, s.queue[w][0], s.at[w], k, i, w)
  {
    hide *;
    InvSized(cfg, s);
    WorkerAt(cfg, w, s, s');
    CstateAt(cfg, s, k, i);
    InQueue(cfg, s, w);
    var t := s.queue[w][0];
    forall c: nat | c < cfg.Cores()
      ensures Part(cfg, s', k, i, c) == Part(cfg, s, k, i, c) + Added(cfg, t, s.at[w], k, i, c)
      ensures c != w ==> Added(cfg, t, s.at[w], k, i, c) == 0
    {
      WorkerPart(cfg, w, s, s', k, i, c);
      AddedElsewhere(cfg, w, t, s.at[w], k, i, c);
    }
    PartsOne(cfg, s, s', k, i, cfg.Cores(), w);
  }

  lemma AddedElsewhere(cfg: Config, w: nat, t: Task, n: nat, k: nat, i: nat, c: nat)
    requires cfg.Ok() && i < cfg.cstates && c < cfg.Cores() && Belongs(cfg, w, t)
    ensures c != w ==> Added(cfg, t, n, k, i, c) == 0
  {
  }

  lemma WorkerCstate(cfg: Config, w: nat, s: State, s': State, k: nat, i: nat)
    requires cfg.Ok() && Inv(cfg, s) && WorkerStep(cfg, w, s, s') && Sized(cfg, s')
    requires k < cfg.Sockets() && i < cfg.cstates
    ensures s'.cstate[k][i] == Parts(cfg, s', k, i, cfg.Cores()) % WORD
  {
    hide *;
    InvSized(cfg, s);
    WorkerAt(cfg, w, s, s');
    CstateAt(cfg, s, k, i);
    InQueue(cfg, s, w);
    BumpedSum(cfg, w, s, s', k, i);
    WorkerParts(cfg, w, s, s', k, i);
  }

  lemma WorkerKeeps(cfg: Config, w: nat, s: State, s': State)
    requires cfg.Ok() && Inv(cfg, s) && WorkerStep(cfg, w, s, s') && Sized(cfg, s')
    ensures Inv(cfg, s')
  {
    WorkerQueues(cfg, w, s, s');
    WorkerCores(cfg, w, s, s');
    WorkerUncore(cfg, w, s, s');
    hide QueuesOk, CoresOk, UncoreOk, Pushes, Done, Parts, Effect;
    forall k: nat, i: nat | k < cfg.Sockets() && i < cfg.cstates
      ensures s'.cstate[k][i] == Parts(cfg, s', k, i, cfg.Cores()) % WORD
    {
      WorkerCstate(cfg, w, s, s', k, i);
    }
  }

  // ----- every run -----

  lemma {:induction false} NothingDone(cfg: Config, k: nat, i: nat, n: nat)
    requires cfg.Ok() && Sized(cfg, Start(cfg)) && k < cfg.Sockets() && i < cfg.cstates && n <= cfg.Cores()
    ensures Parts(cfg, Start(cfg), k, i, n) == 0
  {
    if n > 0 { NothingDone(cfg, k, i, n - 1); }
  }

  lemma StartInv(cfg: Config)
    requires cfg.Ok()
    ensures Inv(cfg, Start(cfg))
  {
    var s := Start(cfg);
    hide Pushes;
    assert Pushes(cfg)[..0] == [];
    forall k: nat, i: nat | k < cfg.Sockets() && i < cfg.cstates
      ensures s.cstate[k][i] == Parts(cfg, s, k, i, cfg.Cores()) % WORD
    {
      NothingDone(cfg, k, i, cfg.Cores());
    }
  }

  lemma WorkerSized(cfg: Config, w: nat, s: State, s': State)
    requires cfg.Ok() && Sized(cfg, s) && WorkerStep(cfg, w, s, s')
    ensures Sized(cfg, s')
  {
  }

  lemma NextKeeps(cfg: Config, s: State, s': State)
    requires cfg.Ok() && Inv(cfg, s) && Next(cfg, s, s')
    ensures Inv(cfg, s')
  {
    hide Inv, MainStep, WorkerStep;
    if MainStep(cfg, s, s') {
      MainKeeps(cfg, s, s');
    } else {
      var w: nat :| WorkerStep(cfg, w, s, s');
      WorkerSized(cfg, w, s, s');
      WorkerKeeps(cfg, w, s, s');
    }
  }

  lemma RunPrefix(cfg: Config, trace: seq<State>)
    requires cfg.Ok() && Run(cfg, trace) && |trace| > 1
    ensures Run(cfg, trace[..|trace| - 1]) && Next(cfg, trace[|trace| - 2], trace[|trace| - 1])
  {
    var n := |trace| - 1;
    hide Next;
    assert Next(cfg, trace[n - 1], trace[n - 1 + 1]);
    forall i | 0 <= i < n - 1
      ensures Next(cfg, trace[..n][i], trace[..n][i + 1])
    {
      assert Next(cfg, trace[i], trace[i + 1]);
    }
  }

  // In every interleaving, after every step.
  lemma {:induction false} RunKeeps(cfg: Config, trace: seq<State>)
    requires cfg.Ok() && Run(cfg, trace)
    ensures Inv(cfg, trace[|trace| - 1])
    decreases |trace|
  {
    hide Inv, Next;
    if |trace| == 1 {
      StartInv(cfg);
    } else {
      var n := |trace| - 1;
      RunPrefix(cfg, trace);
      RunKeeps(cfg, trace[..n]);
      NextKeeps(cfg, trace[n - 1], trace[n]);
    }
  }

  // ----- how long a run is -----

  function Cost(cfg: Config, ts: seq<Task>): nat {
    if ts == [] then 0 else Cost(cfg, ts[..|ts| - 1]) + Steps(cfg, ts[|ts| - 1])
  }

  function Tasks(ps: seq<Push>): (ts: seq<Task>)
    ensures |ts| == |ps|
  {
    seq(|ps|, i requires 0 <= i < |ps| => ps[i].task)
  }

  // The steps that the workers of the queues below n have made.
  function Made(cfg: Config, s: State, n: nat): nat
    requires n <= |s.log| && n <= |s.at|
  {
    if n == 0 then 0 else Made(cfg, s, n - 1) + Cost(cfg, s.log[n - 1]) + s.at[n - 1]
  }

  function CostBelow(cfg: Config, ps: seq<Push>, n: nat): nat {
    if n == 0 then 0 else CostBelow(cfg, ps, n - 1) + Cost(cfg, For(ps, n - 1))
  }

  lemma {:induction false} CostSplit(cfg: Config, a: seq<Task>, b: seq<Task>)
    ensures Cost(cfg, a + b) == Cost(cfg, a) + Cost(cfg, b)
  {
    if b == [] {
      assert a + b == a;
    } else {
      var n := |b| - 1;
      CostSplit(cfg, a, b[..n]);
      assert (a + b)[..|a + b| - 1] == a + b[..n];
    }
  }

  lemma CostForPush(cfg: Config, ps: seq<Push>, q: nat)
    requires ps != []
    ensures Cost(cfg, For(ps, q)) ==
      Cost(cfg, For(ps[..|ps| - 1], q)) + (if ps[|ps| - 1].queue == q then Steps(cfg, ps[|ps| - 1].task) else 0)
  {
    var ts := For(ps[..|ps| - 1], q);
    hide Steps;
    if ps[|ps| - 1].queue == q {
      var t := ps[|ps| - 1].task;
      assert For(ps, q) == ts + [t];
      assert (ts + [t])[..|ts|] == ts;
    } else {
      assert For(ps, q) == ts + [] == ts;
    }
  }

  lemma {:induction false} CostBelowPush(cfg: Config, ps: seq<Push>, n: nat)
    requires ps != []
    ensures CostBelow(cfg, ps, n) ==
      CostBelow(cfg, ps[..|ps| - 1], n) + (if ps[|ps| - 1].queue < n then Steps(cfg, ps[|ps| - 1].task) else 0)
  {
    hide For, Cost, Steps;
    if n > 0 {
      CostBelowPush(cfg, ps, n - 1);
      CostForPush(cfg, ps, n - 1);
    }
  }

  // The work of all queues together is the work of all pushes.
  lemma {:induction false} CostOfAll(cfg: Config, ps: seq<Push>, n: nat)
    requires forall j :: 0 <= j < |ps| ==> ps[j].queue < n
    ensures CostBelow(cfg, ps, n) == Cost(cfg, Tasks(ps))
  {
    if ps == [] {
      CostOfNone(cfg, n);
    } else {
      var m := |ps| - 1;
      CostOfAll(cfg, ps[..m], n);
      CostBelowPush(cfg, ps, n);
      assert Tasks(ps)[..m] == Tasks(ps[..m]);
    }
  }

  lemma {:induction false} CostOfNone(cfg: Config, n: nat)
    ensures CostBelow(cfg, [], n) == 0
  {
    if n > 0 { CostOfNone(cfg, n - 1); }
  }

  lemma {:induction false} MadeSame(cfg: Config, s: State, s': State, n: nat)
    requires n <= |s.log| && n <= |s.at| && n <= |s'.log| && n <= |s'.at|
    requires forall q :: 0 <= q < n ==> s'.log[q] == s.log[q] && s'.at[q] == s.at[q]
    ensures Made(cfg, s', n) == Made(cfg, s, n)
  {
    if n > 0 { MadeSame(cfg, s, s', n - 1); }
  }

  lemma {:induction false} MadeOne(cfg: Config, s: State, s': State, w: nat, n: nat)
    requires w < n <= |s.log| && n <= |s.at| && n <= |s'.log| && n <= |s'.at|
    requires forall q :: 0 <= q < n && q != w ==> s'.log[q] == s.log[q] && s'.at[q] == s.at[q]
    requires Cost(cfg, s'.log[w]) + s'.at[w] == Cost(cfg, s.log[w]) + s.at[w] + 1
    ensures Made(cfg, s', n) == Made(cfg, s, n) + 1
  {
    if w == n - 1 {
      MadeSame(cfg, s, s', n - 1);
    } else {
      MadeOne(cfg, s, s', w, n - 1);
    }
  }

  lemma WorkerMakes(cfg: Config, w: nat, s: State, s': State)
    requires cfg.Ok() && Inv(cfg, s) && WorkerStep(cfg, w, s, s') && Sized(cfg, s')
    ensures Made(cfg, s', cfg.Cores()) == Made(cfg, s, cfg.Cores()) + 1
  {
    var t := s.queue[w][0];
    assert s.at[w] < Steps(cfg, t);
    hide Inv, Effect, Steps;
    assert (s.log[w] + [t])[..|s.log[w]|] == s.log[w];
    MadeOne(cfg, s, s', w, cfg.Cores());
  }

  // No queue has made more steps than its tasks have.
  lemma QueueAtMost(cfg: Config, s: State, q: nat)
    requires cfg.Ok() && Inv(cfg, s) && q < cfg.Cores()
    ensures var made := Cost(cfg, s.log[q]) + s.at[q]; var all := Cost(cfg, For(Pushes(cfg)[..s.pushed], q));
      made <= all && (Ready(cfg, s) ==> made == all)
  {
    var b := s.queue[q];
    assert s.log[q] + b == For(Pushes(cfg)[..s.pushed], q);
    assert if b == [] then s.at[q] == 0 else s.at[q] < Steps(cfg, b[0]);
    assert Ready(cfg, s) ==> b == [];
    hide Inv, For, Pushes, Steps;
    CostSplit(cfg, s.log[q], b);
    if b != [] {
      CostSplit(cfg, [b[0]], b[1..]);
      assert [b[0]] + b[1..] == b;
      assert Cost(cfg, [b[0]]) == Steps(cfg, b[0]);
    }
  }

  lemma {:induction false} MadeAtMost(cfg: Config, s: State, n: nat)
    requires cfg.Ok() && Inv(cfg, s) && n <= cfg.Cores()
    ensures Made(cfg, s, n) <= CostBelow(cfg, Pushes(cfg)[..s.pushed], n)
    ensures Ready(cfg, s) ==> Made(cfg, s, n) == CostBelow(cfg, Pushes(cfg)[..s.pushed], n)
  {
    hide *;
    InvSized(cfg, s);
    OneQueue(cfg, s, Pushes(cfg)[..s.pushed], n);
    if n > 0 {
      MadeAtMost(cfg, s, n - 1);
      QueueAtMost(cfg, s, n - 1);
    }
  }

  lemma OneQueue(cfg: Config, s: State, ps: seq<Push>, n: nat)
    requires n <= |s.log| && n <= |s.at|
    ensures n == 0 ==> Made(cfg, s, n) == CostBelow(cfg, ps, n) == 0
    ensures n > 0 ==> Made(cfg, s, n) == Made(cfg, s, n - 1) + Cost(cfg, s.log[n - 1]) + s.at[n - 1]
    ensures n > 0 ==> CostBelow(cfg, ps, n) == CostBelow(cfg, ps, n - 1) + Cost(cfg, For(ps, n - 1))
  {
  }

  lemma InvSized(cfg: Config, s: State)
    requires cfg.Ok() && Inv(cfg, s)
    ensures Sized(cfg, s) && s.pushed <= |Pushes(cfg)| && |s.log| == |s.at| == |s.queue| == |s.core| == cfg.Cores()
      && |s.cstate| == |s.uncore| == cfg.Sockets() && forall k :: 0 <= k < cfg.Sockets() ==> |s.cstate[k]| == cfg.cstates
  {
  }

  lemma {:induction false} RunMakes(cfg: Config, trace: seq<State>)
    requires cfg.Ok() && Run(cfg, trace)
    ensures Inv(cfg, trace[|trace| - 1])
    ensures |trace| - 1 == trace[|trace| - 1].pushed + Made(cfg, trace[|trace| - 1], cfg.Cores())
    decreases |trace|
  {
    hide Inv, Made;
    RunKeeps(cfg, trace);
    if |trace| == 1 {
      NoneMade(cfg, cfg.Cores());
    } else {
      var n := |trace| - 1;
      var s, s' := trace[n - 1], trace[n];
      RunPrefix(cfg, trace);
      RunMakes(cfg, trace[..n]);
      hide Run;
      if MainStep(cfg, s, s') {
        MadeSame(cfg, s, s', cfg.Cores());
      } else {
        var w: nat :| WorkerStep(cfg, w, s, s');
        WorkerSized(cfg, w, s, s');
        WorkerMakes(cfg, w, s, s');
      }
    }
  }

  lemma {:induction false} NoneMade(cfg: Config, n: nat)
    requires n <= cfg.Cores()
    ensures Made(cfg, Start(cfg), n) == 0
  {
    if n > 0 { NoneMade(cfg, n - 1); }
  }

  // The steps of a whole run: one for every push, and those of every task.
  function RunLength(cfg: Config): nat {
    |Pushes(cfg)| + Cost(cfg, Tasks(Pushes(cfg)))
  }

  lemma {:induction false} CostGrows(cfg: Config, ts: seq<Task>, n: nat)
    requires n <= |ts|
    ensures Cost(cfg, ts[..n]) <= Cost(cfg, ts)
  {
    CostSplit(cfg, ts[..n], ts[n..]);
    assert ts == ts[..n] + ts[n..];
  }

  lemma PushedCost(cfg: Config, n: nat)
    requires cfg.Ok() && n <= |Pushes(cfg)|
    ensures n + CostBelow(cfg, Pushes(cfg)[..n], cfg.Cores()) <= RunLength(cfg)
    ensures n == |Pushes(cfg)| ==> n + CostBelow(cfg, Pushes(cfg)[..n], cfg.Cores()) == RunLength(cfg)
  {
    var all := Pushes(cfg);
    PushesAre(cfg);
    hide Pushes, Cost, CostBelow, Belongs;
    CostOfAll(cfg, all[..n], cfg.Cores());
    assert Tasks(all[..n]) == Tasks(all)[..n];
    CostGrows(cfg, Tasks(all), n);
    if n == |all| {
      assert all[..n] == all;
    }
  }

  lemma AllPushed(cfg: Config, s: State)
    requires Ready(cfg, s)
    ensures s.pushed == |Pushes(cfg)|
  {
  }

  lemma RunNotEmpty(cfg: Config, trace: seq<State>)
    requires cfg.Ok() && Run(cfg, trace)
    ensures |trace| > 0
  {
  }

  lemma WaitsAtMost(cfg: Config, trace: seq<State>)
    requires cfg.Ok() && Run(cfg, trace)
    ensures |trace| - 1 <= RunLength(cfg) && Inv(cfg, trace[|trace| - 1])
    ensures Ready(cfg, trace[|trace| - 1]) ==> |trace| - 1 == RunLength(cfg)
  {
    hide *;
    RunNotEmpty(cfg, trace);
    RunMakes(cfg, trace);
    var s := trace[|trace| - 1];
    InvSized(cfg, s);
    MadeAtMost(cfg, s, cfg.Cores());
    PushedCost(cfg, s.pushed);
    if Ready(cfg, s) { AllPushed(cfg, s); }
  }

  // As long as not all futures are ready, some thread can make a step.
  lemma SomeStep(cfg: Config, s: State) returns (s': State)
    requires cfg.Ok() && Inv(cfg, s) && !Ready(cfg, s)
    ensures Next(cfg, s, s')
  {
    if s.pushed < |Pushes(cfg)| {
      PushesAre(cfg);
      var p := Pushes(cfg)[s.pushed];
      s' := s.(pushed := s.pushed + 1, queue := s.queue[p.queue := s.queue[p.queue] + [p.task]]);
      assert MainStep(cfg, s, s');
    } else {
      var q: nat :| q < |s.queue| && s.queue[q] != [];
      s' := Forced(cfg, s, q);
      assert WorkerStep(cfg, q, s, s');
    }
  }

  // The effect of a step is always possible.
  lemma SomeEffect(cfg: Config, q: nat, t: Task, n: nat, s: State) returns (s': State)
    requires cfg.Ok() && Sized(cfg, s) && Belongs(cfg, q, t) && n < Steps(cfg, t)
    ensures Effect(cfg, t, n, s, s') && s' == s.(core := s'.core, cstate := s'.cstate, uncore := s'.uncore)
  {
    hide Add, Bump;
    match t
    case CoreTask(c) =>
      if n == 0 {
        s' := s.(core := s.core[c := Add(s.core[c], cfg.coreSample[c])]);
      } else {
        var k := cfg.socketOf[c];
        s' := s.(cstate := s.cstate[k := Bump(s.cstate[k], n - 1, cfg.cstateSample[c][n - 1])]);
      }
    case SocketTask(k) =>
      s' := s.(uncore := s.uncore[k := Add(s.uncore[k], cfg.socketSample[k])]);
  }

  lemma Forced(cfg: Config, s: State, q: nat) returns (s': State)
    requires cfg.Ok() && Inv(cfg, s) && q < cfg.Cores() && s.queue[q] != []
    ensures WorkerStep(cfg, q, s, s')
  {
    hide *;
    InvSized(cfg, s);
    InQueue(cfg, s, q);
    AtFront(cfg, s, q);
    var t, n := s.queue[q][0], s.at[q];
    var e := SomeEffect(cfg, q, t, n, s);
    if n + 1 < Steps(cfg, t) {
      s' := e.(at := s.at[q := n + 1]);
    } else {
      s' := e.(at := s.at[q := 0], queue := s.queue[q := s.queue[q][1..]], log := s.log[q := s.log[q] + [t]]);
    }
    SameEffect(cfg, t, n, s, e, s');
    IsStep(cfg, q, t, n, s, s');
  }

  lemma IsStep(cfg: Config, q: nat, t: Task, n: nat, s: State, s': State)
    requires cfg.Ok() && Sized(cfg, s) && q < cfg.Cores() && s.queue[q] != [] && t == s.queue[q][0] && n == s.at[q]
    requires Effect(cfg, t, n, s, s') && s'.pushed == s.pushed
    requires n + 1 < Steps(cfg, t) ==> s'.at == s.at[q := n + 1] && s'.queue == s.queue && s'.log == s.log
    requires n + 1 >= Steps(cfg, t) ==>
      s'.at == s.at[q := 0] && s'.queue == s.queue[q := s.queue[q][1..]] && s'.log == s.log[q := s.log[q] + [t]]
    ensures WorkerStep(cfg, q, s, s')
  {
    hide Effect, Steps;
  }

  lemma SameEffect(cfg: Config, t: Task, n: nat, s: State, e: State, s': State)
    requires cfg.Ok() && Sized(cfg, s) && Effect(cfg, t, n, s, e)
    requires s'.core == e.core && s'.cstate == e.cstate && s'.uncore == e.uncore
    ensures Effect(cfg, t, n, s, s')
  {
    hide Add, Bump;
  }

  lemma RunLonger(cfg: Config, trace: seq<State>, s: State)
    requires cfg.Ok() && Run(cfg, trace) && Next(cfg, trace[|trace| - 1], s)
    ensures Run(cfg, trace + [s])
  {
    hide Next, Start;
    var longer := trace + [s];
    forall i | 0 <= i < |longer| - 1
      ensures Next(cfg, longer[i], longer[i + 1])
    {
      if i == |trace| - 1 { assert longer[i] == trace[|trace| - 1] && longer[i + 1] == s; }
    }
  }

  /** No run is longer than RunLength, and a run has that length exactly when all futures are
      ready: whatever the workers do, waiting for the futures ends. */
  lemma Waits(cfg: Config, trace: seq<State>)
    requires cfg.Ok() && Run(cfg, trace)
    ensures |trace| - 1 <= RunLength(cfg)
    ensures |trace| - 1 == RunLength(cfg) <==> Ready(cfg, trace[|trace| - 1])
  {
    hide *;
    RunNotEmpty(cfg, trace);
    WaitsAtMost(cfg, trace);
    if !Ready(cfg, trace[|trace| - 1]) {
      var s := SomeStep(cfg, trace[|trace| - 1]);
      RunLonger(cfg, trace, s);
      WaitsAtMost(cfg, trace + [s]);
    }
  }

  // ----- what the counters hold when all futures are ready -----

  // The samples of the online cores below n of socket k, added up.
  function SocketSum(cfg: Config, xs: seq<Counters>, k: nat, i: nat, n: nat): nat
    requires |cfg.online| == |cfg.socketOf| == |xs| && n <= |xs|
    requires forall c :: 0 <= c < n ==> i < |xs[c]|
  {
    if n == 0 then 0
    else SocketSum(cfg, xs, k, i, n - 1) + if cfg.online[n - 1] && cfg.socketOf[n - 1] == k then xs[n - 1][i] else 0
  }

  lemma {:induction false} PartsAre(cfg: Config, s: State, k: nat, i: nat, n: nat)
    requires cfg.Ok() && Sized(cfg, s) && k < cfg.Sockets() && i < cfg.cstates && n <= cfg.Cores()
    requires forall c :: 0 <= c < cfg.Cores() && cfg.online[c] ==> CoreTask(c) in s.log[c]
    ensures Parts(cfg, s, k, i, n) == SocketSum(cfg, cfg.cstateSample, k, i, n)
  {
    if n > 0 {
      PartsAre(cfg, s, k, i, n - 1);
      assert Part(cfg, s, k, i, n - 1) ==
        if cfg.online[n - 1] && cfg.socketOf[n - 1] == k then cfg.cstateSample[n - 1][i] else 0;
    }
  }

  // A ready state has run every task, in the order of the pushes.
  lemma AllRun(cfg: Config, s: State)
    requires cfg.Ok() && Inv(cfg, s) && Ready(cfg, s)
    ensures forall q :: 0 <= q < cfg.Cores() ==> s.log[q] == For(Pushes(cfg), q) && Distinct(s.log[q])
    ensures forall c :: 0 <= c < cfg.Cores() ==> (CoreTask(c) in s.log[c] <==> cfg.online[c])
    ensures forall k :: 0 <= k < cfg.Sockets() ==> SocketTask(k) in s.log[RefQueue(cfg, k)]
  {
    PushesAre(cfg);
    assert Pushes(cfg)[..s.pushed] == Pushes(cfg);
    hide Pushes, For, CoresOk, UncoreOk, CstatesOk, Distinct;
    forall q | 0 <= q < cfg.Cores()
      ensures s.log[q] == For(Pushes(cfg), q) && Distinct(s.log[q])
    {
      PushedFacts(cfg, s.pushed, q);
      assert s.log[q] + [] == s.log[q];
    }
    forall c | 0 <= c < cfg.Cores()
      ensures CoreTask(c) in s.log[c] <==> cfg.online[c]
    {
      ForIn(Pushes(cfg), c, CoreTask(c));
      PushedFacts(cfg, s.pushed, c);
    }
    forall k | 0 <= k < cfg.Sockets()
      ensures SocketTask(k) in s.log[RefQueue(cfg, k)]
    {
      ForIn(Pushes(cfg), RefQueue(cfg, k), SocketTask(k));
    }
  }

  // The counters when all futures are ready.
  lemma ReadyCore(cfg: Config, s: State, c: nat)
    requires cfg.Ok() && Inv(cfg, s) && Ready(cfg, s) && c < cfg.Cores()
    requires CoreTask(c) in s.log[c] <==> cfg.online[c]
    ensures s.core[c] == if cfg.online[c] then cfg.coreSample[c] else Zeros(cfg.basic)
  {
    hide Pushes, QueuesOk, UncoreOk, CstatesOk;
  }

  lemma ReadyUncore(cfg: Config, s: State, k: nat)
    requires cfg.Ok() && Inv(cfg, s) && k < cfg.Sockets() && SocketTask(k) in s.log[RefQueue(cfg, k)]
    ensures s.uncore[k] == cfg.socketSample[k]
  {
    hide Pushes, QueuesOk, CoresOk, CstatesOk;
  }

  lemma ReadyCstate(cfg: Config, s: State, k: nat, i: nat)
    requires cfg.Ok() && Inv(cfg, s) && k < cfg.Sockets() && i < cfg.cstates
    requires forall c :: 0 <= c < cfg.Cores() && cfg.online[c] ==> CoreTask(c) in s.log[c]
    ensures s.cstate[k][i] == SocketSum(cfg, cfg.cstateSample, k, i, cfg.Cores()) % WORD
  {
    hide *;
    InvSized(cfg, s);
    CstateAt(cfg, s, k, i);
    PartsAre(cfg, s, k, i, cfg.Cores());
  }

  /** In every interleaving: when all futures are ready, every queue has run its tasks once, in
      the order of the pushes; every online core and every socket has its own sample, and the
      C-state counters of a socket are the sums, modulo 2^64, over its online cores. */
  lemma WhenReady(cfg: Config, trace: seq<State>, s: State)
    requires cfg.Ok() && Run(cfg, trace) && s == trace[|trace| - 1] && Ready(cfg, s)
    ensures Sized(cfg, s)
    ensures forall q :: 0 <= q < cfg.Cores() ==> s.log[q] == For(Pushes(cfg), q) && Distinct(s.log[q])
    ensures forall c :: 0 <= c < cfg.Cores() ==> s.core[c] == if cfg.online[c] then cfg.coreSample[c] else Zeros(cfg.basic)
    ensures forall k :: 0 <= k < cfg.Sockets() ==> s.uncore[k] == cfg.socketSample[k]
    ensures forall k, i :: 0 <= k < cfg.Sockets() && 0 <= i < cfg.cstates ==>
      s.cstate[k][i] == SocketSum(cfg, cfg.cstateSample, k, i, cfg.Cores()) % WORD
  {
    hide Run, Pushes, For, Inv, Ready, Distinct, Parts, SocketSum, RefQueue, Zeros;
    RunKeeps(cfg, trace);
    InvSized(cfg, s);
    AllRun(cfg, s);
    forall c: nat | c < cfg.Cores()
      ensures s.core[c] == if cfg.online[c] then cfg.coreSample[c] else Zeros(cfg.basic)
    {
      ReadyCore(cfg, s, c);
    }
    forall k: nat | k < cfg.Sockets()
      ensures s.uncore[k] == cfg.socketSample[k]
    {
      ReadyUncore(cfg, s, k);
    }
    forall k: nat, i: nat | k < cfg.Sockets() && i < cfg.cstates
      ensures s.cstate[k][i] == SocketSum(cfg, cfg.cstateSample, k, i, cfg.Cores()) % WORD
    {
      ReadyCstate(cfg, s, k, i);
    }
  }

  // ----- the sums over sockets -----

  // Column i of the rows, added up.
  function Column(rows: seq<Counters>, i: nat): nat
    requires forall j :: 0 <= j < |rows| ==> i < |rows[j]|
  {
    if rows == [] then 0 else Column(rows[..|rows| - 1], i) + rows[|rows| - 1][i]
  }

  // The samples of all online cores below n, added up.
  function OnlineSum(online: seq<bool>, xs: seq<Counters>, i: nat, n: nat): nat
    requires |online| == |xs| && n <= |xs|
    requires forall c :: 0 <= c < n ==> i < |xs[c]|
  {
    if n == 0 then 0 else OnlineSum(online, xs, i, n - 1) + if online[n - 1] then xs[n - 1][i] else 0
  }

  lemma ModSum(x: int, y: U64)
    ensures (x % WORD + y) % WORD == (x + y) % WORD
  {
  }

  /** The second half of getAllCounterStates, after the wait: the core counters of each online
      core are added to its socket, and all counters of the sockets to the system. */
  method Aggregate(cfg: Config, s: State) returns (socket: seq<Counters>, core: Counters, cstate: Counters, uncore: Counters)
    requires cfg.Ok() && Sized(cfg, s)
    ensures |socket| == cfg.Sockets() && |core| == cfg.basic && |cstate| == cfg.cstates && |uncore| == cfg.uncore
    ensures forall k, i :: 0 <= k < cfg.Sockets() && 0 <= i < cfg.basic ==>
      |socket[k]| == cfg.basic && socket[k][i] == SocketSum(cfg, s.core, k, i, cfg.Cores()) % WORD
    ensures forall k :: 0 <= k < cfg.Sockets() ==> |socket[k]| == cfg.basic
    ensures forall i :: 0 <= i < cfg.basic ==> core[i] == Column(socket, i) % WORD
    ensures forall i :: 0 <= i < cfg.cstates ==> cstate[i] == Column(s.cstate, i) % WORD
    ensures forall i :: 0 <= i < cfg.uncore ==> uncore[i] == Column(s.uncore, i) % WORD
  {
    socket := seq(cfg.Sockets(), _ => Zeros(cfg.basic));
    core, cstate, uncore := Zeros(cfg.basic), Zeros(cfg.cstates), Zeros(cfg.uncore);
    for c := 0 to cfg.Cores()
      invariant |socket| == cfg.Sockets()
      invariant forall k :: 0 <= k < cfg.Sockets() ==> |socket[k]| == cfg.basic
      invariant forall k, i :: 0 <= k < cfg.Sockets() && 0 <= i < cfg.basic ==>
        socket[k][i] == SocketSum(cfg, s.core, k, i, c) % WORD
    {
      if cfg.online[c] {
        socket := AccumulateCoreState(cfg, s.core, socket, c);
      }
    }
    for k := 0 to cfg.Sockets()
      invariant |core| == cfg.basic && |cstate| == cfg.cstates && |uncore| == cfg.uncore
      invariant forall i :: 0 <= i < cfg.basic ==> core[i] == Column(socket[..k], i) % WORD
      invariant forall i :: 0 <= i < cfg.cstates ==> cstate[i] == Column(s.cstate[..k], i) % WORD
      invariant forall i :: 0 <= i < cfg.uncore ==> uncore[i] == Column(s.uncore[..k], i) % WORD
    {
      core := AccumulateRow(core, socket, k);
      cstate := AccumulateRow(cstate, s.cstate, k);
      uncore := AccumulateRow(uncore, s.uncore, k);
    }
    assert socket[..cfg.Sockets()] == socket && s.cstate[..cfg.Sockets()] == s.cstate;
    assert s.uncore[..cfg.Sockets()] == s.uncore;
  }

  method AccumulateCoreState(cfg: Config, xs: seq<Counters>, socket: seq<Counters>, c: nat) returns (r: seq<Counters>)
    requires cfg.Ok() && c < cfg.Cores() == |xs| && cfg.online[c] && |socket| == cfg.Sockets()
    requires forall d :: 0 <= d < |xs| ==> |xs[d]| == cfg.basic
    requires forall k :: 0 <= k < cfg.Sockets() ==> |socket[k]| == cfg.basic
    requires forall k, i :: 0 <= k < cfg.Sockets() && 0 <= i < cfg.basic ==>
      socket[k][i] == SocketSum(cfg, xs, k, i, c) % WORD
    ensures |r| == cfg.Sockets() && forall k :: 0 <= k < cfg.Sockets() ==> |r[k]| == cfg.basic
    ensures forall k, i :: 0 <= k < cfg.Sockets() && 0 <= i < cfg.basic ==>
      r[k][i] == SocketSum(cfg, xs, k, i, c + 1) % WORD
  {
    var k := cfg.socketOf[c];
    r := socket[k := Add(socket[k], xs[c])];
    forall i | 0 <= i < cfg.basic
      ensures r[k][i] == SocketSum(cfg, xs, k, i, c + 1) % WORD
    {
      ModSum(SocketSum(cfg, xs, k, i, c), xs[c][i]);
    }
  }

  method AccumulateRow(sum: Counters, rows: seq<Counters>, k: nat) returns (r: Counters)
    requires k < |rows| && forall j :: 0 <= j < |rows| ==> |rows[j]| == |sum|
    requires forall i :: 0 <= i < |sum| ==> sum[i] == Column(rows[..k], i) % WORD
    ensures |r| == |sum| && forall i :: 0 <= i < |sum| ==> r[i] == Column(rows[..k + 1], i) % WORD
  {
    r := Add(sum, rows[k]);
    assert rows[..k + 1][..k] == rows[..k];
    forall i | 0 <= i < |sum|
      ensures r[i] == Column(rows[..k + 1], i) % WORD
    {
      ModSum(Column(rows[..k], i), rows[k][i]);
    }
  }

  // Sums over the sockets of sums over their cores are sums over all online cores.
  function SocketSums(cfg: Config, xs: seq<Counters>, i: nat, n: nat, m: nat): nat
    requires |cfg.online| == |cfg.socketOf| == |xs| && n <= |xs|
    requires forall c :: 0 <= c < n ==> i < |xs[c]|
  {
    if m == 0 then 0 else SocketSums(cfg, xs, i, n, m - 1) + SocketSum(cfg, xs, m - 1, i, n)
  }

  lemma {:induction false} OneMore(cfg: Config, xs: seq<Counters>, i: nat, n: nat, m: nat)
    requires |cfg.online| == |cfg.socketOf| == |xs| && 0 < n <= |xs|
    requires forall c :: 0 <= c < n ==> i < |xs[c]|
    ensures SocketSums(cfg, xs, i, n, m) ==
      SocketSums(cfg, xs, i, n - 1, m) + (if cfg.online[n - 1] && cfg.socketOf[n - 1] < m then xs[n - 1][i] else 0)
  {
    if m > 0 { OneMore(cfg, xs, i, n, m - 1); }
  }

  lemma {:induction false} NoCores(cfg: Config, xs: seq<Counters>, i: nat, m: nat)
    requires |cfg.online| == |cfg.socketOf| == |xs|
    ensures SocketSums(cfg, xs, i, 0, m) == 0
  {
    if m > 0 { NoCores(cfg, xs, i, m - 1); }
  }

  lemma {:induction false} SumsAgree(cfg: Config, xs: seq<Counters>, i: nat, n: nat)
    requires cfg.Ok() && |xs| == cfg.Cores() && n <= |xs|
    requires forall c :: 0 <= c < n ==> i < |xs[c]|
    ensures SocketSums(cfg, xs, i, n, cfg.Sockets()) == OnlineSum(cfg.online, xs, i, n)
  {
    if n == 0 {
      NoCores(cfg, xs, i, cfg.Sockets());
    } else {
      SumsAgree(cfg, xs, i, n - 1);
      OneMore(cfg, xs, i, n, cfg.Sockets());
    }
  }

  lemma {:induction false} ColumnOfSums(cfg: Config, xs: seq<Counters>, rows: seq<Counters>, i: nat, n: nat)
    requires cfg.Ok() && |xs| == cfg.Cores() && |rows| == cfg.Sockets() && n <= |rows|
    requires forall c :: 0 <= c < |xs| ==> i < |xs[c]|
    requires forall k :: 0 <= k < |rows| ==> i < |rows[k]| && rows[k][i] == SocketSum(cfg, xs, k, i, cfg.Cores()) % WORD
    ensures Column(rows[..n], i) % WORD == SocketSums(cfg, xs, i, cfg.Cores(), n) % WORD
  {
    if n > 0 {
      ColumnOfSums(cfg, xs, rows, i, n - 1);
      assert rows[..n][..n - 1] == rows[..n - 1];
      TwoSums(Column(rows[..n - 1], i), SocketSums(cfg, xs, i, cfg.Cores(), n - 1), SocketSum(cfg, xs, n - 1, i, cfg.Cores()));
    }
  }

  lemma TwoSums(a: int, b: int, c: int)
    requires a % WORD == b % WORD
    ensures (a + c % WORD) % WORD == (b + c) % WORD
  {
  }

  lemma {:induction false} SameSamples(cfg: Config, xs: seq<Counters>, ys: seq<Counters>, k: nat, i: nat, n: nat)
    requires cfg.Ok() && |xs| == |ys| == cfg.Cores() && n <= |xs|
    requires forall c :: 0 <= c < |xs| ==> i < |xs[c]| && i < |ys[c]| && (cfg.online[c] ==> xs[c] == ys[c])
    ensures SocketSum(cfg, xs, k, i, n) == SocketSum(cfg, ys, k, i, n)
  {
    if n > 0 { SameSamples(cfg, xs, ys, k, i, n - 1); }
  }

  /** The whole call, for every interleaving of the tasks: the counters of a socket are the
      sums of the samples of its online cores, and those of the system the sums over all
      online cores and over all sockets, modulo 2^64. */
  method GetAllCounterStates(cfg: Config, ghost trace: seq<State>, s: State)
    returns (socket: seq<Counters>, core: Counters, cstate: Counters, uncore: Counters)
    requires cfg.Ok() && Run(cfg, trace) && s == trace[|trace| - 1] && Ready(cfg, s)
    ensures |socket| == cfg.Sockets() && |core| == cfg.basic && |cstate| == cfg.cstates && |uncore| == cfg.uncore
    ensures forall k :: 0 <= k < cfg.Sockets() ==> |socket[k]| == cfg.basic
    ensures forall k, i :: 0 <= k < cfg.Sockets() && 0 <= i < cfg.basic ==>
      socket[k][i] == SocketSum(cfg, cfg.coreSample, k, i, cfg.Cores()) % WORD
    ensures forall i :: 0 <= i < cfg.basic ==> core[i] == OnlineSum(cfg.online, cfg.coreSample, i, cfg.Cores()) % WORD
    ensures forall i :: 0 <= i < cfg.cstates ==>
      cstate[i] == OnlineSum(cfg.online, cfg.cstateSample, i, cfg.Cores()) % WORD
    ensures forall i :: 0 <= i < cfg.uncore ==> uncore[i] == Column(cfg.socketSample, i) % WORD
  {
    hide Run, Ready, SocketSum, Column, OnlineSum, Pushes, For, Distinct;
    WhenReady(cfg, trace, s);
    socket, core, cstate, uncore := Aggregate(cfg, s);
    assert s.uncore == cfg.socketSample;
    forall k: nat, i: nat | k < cfg.Sockets() && i < cfg.basic
      ensures SocketSum(cfg, s.core, k, i, cfg.Cores()) == SocketSum(cfg, cfg.coreSample, k, i, cfg.Cores())
    {
      SameSamples(cfg, s.core, cfg.coreSample, k, i, cfg.Cores());
    }
    forall i: nat | i < cfg.basic
      ensures Column(socket, i) % WORD == OnlineSum(cfg.online, cfg.coreSample, i, cfg.Cores()) % WORD
    {
      SystemSum(cfg, cfg.coreSample, socket, i);
    }
    forall i: nat | i < cfg.cstates
      ensures Column(s.cstate, i) % WORD == OnlineSum(cfg.online, cfg.cstateSample, i, cfg.Cores()) % WORD
    {
      SystemSum(cfg, cfg.cstateSample, s.cstate, i);
    }
  }

  lemma SystemSum(cfg: Config, xs: seq<Counters>, rows: seq<Counters>, i: nat)
    requires cfg.Ok() && |xs| == cfg.Cores() && |rows| == cfg.Sockets()
    requires forall c :: 0 <= c < |xs| ==> i < |xs[c]|
    requires forall k :: 0 <= k < |rows| ==> i < |rows[k]| && rows[k][i] == SocketSum(cfg, xs, k, i, cfg.Cores()) % WORD
    ensures Column(rows, i) % WORD == OnlineSum(cfg.online, xs, i, cfg.Cores()) % WORD
  {
    ColumnOfSums(cfg, xs, rows, i, |rows|);
    assert rows[..|rows|] == rows;
    SumsAgree(cfg, xs, i, cfg.Cores());
  }
}
