/** sleep_on and wake_up (kernel/sched.c:441-488) for any number of tasks and queues.

    A queue is only its head; the rest of it lives in the local variable tmp of the tasks
    that are suspended inside sleep_on.  schedule() may return without having switched, so
    a task may leave sleep_on although nobody woke it. */
module WaitQueue {
  import opened Basics

  /** What a task suspended in sleep_on remembers: the queue, and tmp. */
  datatype Parked = Parked(queue: nat, tmp: Option<nat>)

  /** Per task: whether its state is TASK_RUNNING, whether it is suspended in sleep_on, and the
      queue it last slept on, unless something other than the queue has set its state since;
      per queue: its head. */
  datatype State = State(running: seq<bool>, parked: seq<Option<Parked>>, slept: seq<Option<nat>>,
                         heads: seq<Option<nat>>)

  ghost predicate Shape(s: State) {
    && |s.running| == |s.parked| == |s.slept|
    && (forall q :: 0 <= q < |s.heads| && s.heads[q].Some? ==> s.heads[q].value < |s.running|)
    && (forall t :: 0 <= t < |s.slept| && s.slept[t].Some? ==> s.slept[t].value < |s.heads|)
    && (forall t :: 0 <= t < |s.parked| && s.parked[t].Some? ==>
          s.slept[t] == Some(s.parked[t].value.queue)
          && (s.parked[t].value.tmp.Some? ==> s.parked[t].value.tmp.value < |s.running|))
  }

  predicate IsParked(s: State, t: nat) { t < |s.parked| && s.parked[t].Some? }
  predicate IsRunning(s: State, t: nat) { t < |s.running| && s.running[t] }
  predicate SleptOn(s: State, t: nat, q: nat) { t < |s.slept| && s.slept[t] == Some(q) }

  // ---- steps ----

  datatype Event =
    | SleepOn(t: nat, q: nat)     // t enters sleep_on and gives up the processor
    | Return(t: nat)              // schedule() returns in t, woken or not, and t leaves sleep_on
    | WakeUp(q: nat)
    | SetState(t: nat, run: bool) // a task outside sleep_on changes state (pause, exit, signals)

  predicate CanStep(s: State, e: Event) {
    |s.running| == |s.parked| == |s.slept|
    && match e
       case SleepOn(t, q) => t < |s.running| && q < |s.heads| && !IsParked(s, t)
       case Return(t) =>
         IsParked(s, t) && (s.parked[t].value.tmp.Some? ==> s.parked[t].value.tmp.value < |s.running|)
       case WakeUp(q) => q < |s.heads| && (s.heads[q].Some? ==> s.heads[q].value < |s.running|)
       case SetState(t, _) => t < |s.running| && !IsParked(s, t)
  }

  function Step(s: State, e: Event): State
    requires CanStep(s, e)
  {
    match e
    case SleepOn(t, q) =>
      State(s.running[t := false], s.parked[t := Some(Parked(q, s.heads[q]))], s.slept[t := Some(q)],
            s.heads[q := Some(t)])
    case Return(t) =>
      var tmp := s.parked[t].value.tmp;
      State(if tmp.Some? then s.running[tmp.value := true] else s.running, s.parked[t := None], s.slept, s.heads)
    case WakeUp(q) =>
      if s.heads[q].None? then s
      else State(s.running[s.heads[q].value := true], s.parked, s.slept, s.heads[q := None])
    case SetState(t, run) => State(s.running[t := run], s.parked, s.slept[t := None], s.heads)
  }

  // ---- who runs, and what is remembered ----

  /** The event sets t RUNNING: a wake_up that finds it at the head of the queue, or the return of
      a task that remembers it. */
  predicate Wakes(s: State, e: Event, t: nat)
    requires CanStep(s, e)
  {
    match e
    case WakeUp(q) => s.heads[q] == Some(t)
    case Return(u) => s.parked[u].value.tmp == Some(t)
    case _ => false
  }

  /** Who is RUNNING after a step: whoever was or has been woken, but for the task that goes to
      sleep, and the one whose state is set otherwise. */
  lemma StepRuns(s: State, e: Event, t: nat)
    requires CanStep(s, e) && t < |s.running|
    ensures IsRunning(Step(s, e), t)
       <==> !(e.SleepOn? && e.t == t)
            && (if e.SetState? && e.t == t then e.run else IsRunning(s, t) || Wakes(s, e, t))
  {
  }

  /** A task that sleep_on has put to sleep is RUNNING again if and only if it has been woken
      since, as long as nothing else sets its state. */
  lemma {:induction false} SleepsUntilWoken(ss: seq<State>, es: seq<Event>, i: nat, j: nat, t: nat)
    requires IsRun(ss, es) && i < j <= |es| && es[i].SleepOn? && es[i].t == t
    requires forall x :: i < x < j ==> LeavesAlone(es[x], t)
    ensures t < |ss[j].running|
    ensures IsRunning(ss[j], t) <==> exists x :: i < x < j && CanStep(ss[x], es[x]) && Wakes(ss[x], es[x], t)
    decreases j
  {
    assert ss[j - 1 + 1] == Step(ss[j - 1], es[j - 1]);
    if j > i + 1 { SleepsUntilWoken(ss, es, i, j - 1, t); }
    StepRuns(ss[j - 1], es[j - 1], t);
  }

  /** wake_up leaves the queue empty, so that the next task to sleep on it remembers nobody; and
      one that sleeps after that remembers this one. */
  lemma QueuesAreChained(s: State, q: nat, t: nat, u: nat)
    requires Shape(s) && CanStep(s, WakeUp(q)) && t != u && t < |s.running| && u < |s.running|
    requires !IsParked(s, t) && !IsParked(s, u)
    ensures var s1 := Step(s, WakeUp(q)); s1.heads[q] == None && CanStep(s1, SleepOn(t, q))
    ensures var s2 := Step(Step(s, WakeUp(q)), SleepOn(t, q));
      && s2.parked[t] == Some(Parked(q, None)) && s2.heads[q] == Some(t) && CanStep(s2, SleepOn(u, q))
      && var s3 := Step(s2, SleepOn(u, q));
      && s3.parked[u] == Some(Parked(q, Some(t))) && s3.heads[q] == Some(u) && s3.parked[t] == s2.parked[t]
      && CanStep(s3, Return(u)) && IsRunning(Step(s3, Return(u)), t) && !IsParked(Step(s3, Return(u)), u)
  {
  }

  /** A step concerns one queue: the heads of all others stay. */
  lemma OtherQueuesStay(s: State, e: Event, q: nat)
    requires CanStep(s, e) && q < |s.heads| && (e.SleepOn? || e.WakeUp? ==> e.q != q)
    ensures |Step(s, e).heads| == |s.heads| && Step(s, e).heads[q] == s.heads[q]
  {
  }

  // ---- links ----

  /** Each task of the path but the last is parked and remembers the next one. */
  ghost predicate IsPath(s: State, p: seq<nat>) {
    && |p| > 0
    && (forall i :: 0 <= i < |p| - 1 ==> IsParked(s, p[i]) && s.parked[p[i]].value.tmp == Some(p[i + 1]))
  }

  /** A path from the head of the queue that u slept on, or from a parked task that is already
      set RUNNING, to u. */
  ghost predicate Reaches(s: State, p: seq<nat>, u: nat) {
    && IsPath(s, p) && p[|p| - 1] == u
    && (IsRunning(s, p[0])
        || (u < |s.slept| && s.slept[u].Some? && s.slept[u].value < |s.heads|
            && s.heads[s.slept[u].value] == Some(p[0])))
  }

  /** A task that sleep_on has put to sleep and nobody has woken can still be reached, even if
      it has left sleep_on meanwhile: sleep_on itself never sets its own task RUNNING. */
  ghost predicate NotLost(s: State, u: nat) {
    u < |s.slept| && s.slept[u].Some? && !IsRunning(s, u) ==> exists p :: Reaches(s, p, u)
  }

  ghost predicate Inv(s: State) { Shape(s) && forall u: nat :: NotLost(s, u) }

  /** Without the first n tasks a path is still a path, if the links after them are there. */
  lemma PathRest(s: State, s': State, p: seq<nat>, n: nat)
    requires IsPath(s, p) && n < |p|
    requires forall i :: n <= i < |p| - 1 ==> IsParked(s', p[i]) && s'.parked[p[i]] == s.parked[p[i]]
    ensures IsPath(s', p[n..])
  {
    var r := p[n..];
    forall i | 0 <= i < |r| - 1 ensures IsParked(s', r[i]) && s'.parked[r[i]].value.tmp == Some(r[i + 1]) {
      assert r[i] == p[n + i] && r[i + 1] == p[n + (i + 1)];
      assert IsParked(s, p[n + i]) && s.parked[p[n + i]].value.tmp == Some(p[n + i + 1]);
    }
  }

  /** The last position of t on the path before its end, or -1. */
  ghost function LastBefore(p: seq<nat>, t: nat): (n: int)
    requires p != []
    ensures -1 <= n < |p| - 1 && (n >= 0 ==> p[n] == t) && forall i :: n < i < |p| - 1 ==> p[i] != t
  {
    if |p| == 1 then -1
    else if p[|p| - 2] == t then |p| - 2
    else
      var n := LastBefore(p[..|p| - 1], t);
      assert forall i :: 0 <= i < |p| - 1 ==> p[..|p| - 1][i] == p[i];
      n
  }

  lemma SleepKeeps(s: State, t: nat, q: nat, u: nat)
    requires Inv(s) && CanStep(s, SleepOn(t, q))
    ensures NotLost(Step(s, SleepOn(t, q)), u)
  {
    var s' := Step(s, SleepOn(t, q));
    if u < |s'.slept| && s'.slept[u].Some? && !IsRunning(s', u) {
      if u == t {
        assert IsPath(s', [t]);
        assert Reaches(s', [t], u);
      } else {
        assert NotLost(s, u);
        var p :| Reaches(s, p, u);
        assert forall i :: 0 <= i < |p| - 1 ==> IsParked(s, p[i]) && p[i] != t;
        PathRest(s, s', p, 0);
        assert p[0..] == p;
        if !IsRunning(s, p[0]) && s.slept[u].value == q {
          var p' := [t] + p;
          assert IsPath(s', p');
          assert Reaches(s', p', u);
        } else {
          assert Reaches(s', p, u);
        }
      }
    }
  }

  lemma WakeKeeps(s: State, q: nat, u: nat)
    requires Inv(s) && CanStep(s, WakeUp(q))
    ensures NotLost(Step(s, WakeUp(q)), u)
  {
    var s' := Step(s, WakeUp(q));
    if u < |s'.slept| && s'.slept[u].Some? && !IsRunning(s', u) {
      assert NotLost(s, u);
      var p :| Reaches(s, p, u);
      PathRest(s, s', p, 0);
      assert p[0..] == p;
      assert Reaches(s', p, u);
    }
  }

  /** When a task of the path leaves sleep_on it wakes the next one; the rest of the path
      hangs off that. */
  lemma ReturnKeeps(s: State, t: nat, u: nat)
    requires Inv(s) && CanStep(s, Return(t))
    ensures NotLost(Step(s, Return(t)), u)
  {
    var s' := Step(s, Return(t));
    if u < |s'.slept| && s'.slept[u].Some? && !IsRunning(s', u) {
      assert NotLost(s, u);
      var p :| Reaches(s, p, u);
      var n := LastBefore(p, t) + 1;
      assert forall i :: n <= i < |p| - 1 ==> IsParked(s, p[i]) && p[i] != t;
      PathRest(s, s', p, n);
      if n > 0 { assert s.parked[p[n - 1]].value.tmp == Some(p[n - 1 + 1]); }
      assert Reaches(s', p[n..], u);
    }
  }

  lemma SetStateKeeps(s: State, t: nat, run: bool, u: nat)
    requires Inv(s) && CanStep(s, SetState(t, run))
    ensures NotLost(Step(s, SetState(t, run)), u)
  {
    var s' := Step(s, SetState(t, run));
    if u < |s'.slept| && s'.slept[u].Some? && !IsRunning(s', u) {
      assert NotLost(s, u);
      var p :| Reaches(s, p, u);
      assert forall i :: 0 <= i < |p| - 1 ==> IsParked(s, p[i]) && p[i] != t;
      PathRest(s, s', p, 0);
      assert p[0..] == p;
      assert Reaches(s', p, u);
    }
  }

  lemma StepKeeps(s: State, e: Event)
    requires Inv(s) && CanStep(s, e)
    ensures Inv(Step(s, e))
  {
    hide NotLost;
    forall u: nat ensures NotLost(Step(s, e), u) {
      match e
      case SleepOn(t, q) => SleepKeeps(s, t, q, u);
      case Return(t) => ReturnKeeps(s, t, u);
      case WakeUp(q) => WakeKeeps(s, q, u);
      case SetState(t, run) => SetStateKeeps(s, t, run, u);
    }
  }

  // ---- runs ----

  ghost predicate IsRun(ss: seq<State>, es: seq<Event>) {
    |ss| == |es| + 1 && forall i :: 0 <= i < |es| ==> CanStep(ss[i], es[i]) && ss[i + 1] == Step(ss[i], es[i])
  }

  /** No sleeper is lost, in any interleaving: at every point of a run from a state without
      sleepers, each task that sleep_on has put to sleep and that is not RUNNING since, parked or
      not, is reachable, through the tmp of parked tasks, from the head of its queue or from a
      parked task already set RUNNING. */
  lemma {:induction false} NoSleeperIsLost(ss: seq<State>, es: seq<Event>, i: nat, u: nat)
    requires IsRun(ss, es) && i < |ss|
    requires Shape(ss[0]) && forall t :: 0 <= t < |ss[0].slept| ==> ss[0].slept[t].None?
    ensures Inv(ss[i]) && NotLost(ss[i], u)
    decreases i
  {
    if i > 0 {
      NoSleeperIsLost(ss, es, i - 1, u);
      StepKeeps(ss[i - 1], es[i - 1]);
      assert ss[i - 1 + 1] == Step(ss[i - 1], es[i - 1]);
    }
  }

  /** u is RUNNING, or hangs, over parked tasks, on a parked task that is. */
  ghost predicate OnItsWay(s: State, p: seq<nat>, u: nat) {
    IsPath(s, p) && p[|p| - 1] == u && IsRunning(s, p[0])
  }

  /** wake_up reaches every sleeper of the queue, not only the one it sets RUNNING. */
  lemma WakeUpReachesAll(s: State, q: nat, u: nat) returns (p: seq<nat>)
    requires Inv(s) && CanStep(s, WakeUp(q)) && SleptOn(s, u, q)
    ensures OnItsWay(Step(s, WakeUp(q)), p, u)
  {
    var s' := Step(s, WakeUp(q));
    if IsRunning(s, u) {
      p := [u];
    } else {
      assert NotLost(s, u);
      p :| Reaches(s, p, u);
      PathRest(s, s', p, 0);
      assert p[0..] == p;
    }
  }

  /** The event is no new sleep of u, and nothing else sets the state of u. */
  predicate LeavesAlone(e: Event, u: nat) {
    !(e.SleepOn? && e.t == u) && !(e.SetState? && e.t == u)
  }

  /** Whatever else happens u stays on its way, on the same path or on the end of it; when the
      front of the path returns the path gets shorter. */
  lemma StepCarries(s: State, e: Event, p: seq<nat>, u: nat) returns (n: nat)
    requires CanStep(s, e) && OnItsWay(s, p, u) && LeavesAlone(e, u)
    ensures n < |p| && OnItsWay(Step(s, e), p[n..], u)
    ensures e == Return(p[0]) && |p| > 1 ==> n >= 1
  {
    var s' := Step(s, e);
    n := 0;
    if e.Return? {
      n := LastBefore(p, e.t) + 1;
      if n > 0 { assert s.parked[p[n - 1]].value.tmp == Some(p[n - 1 + 1]); }
    }
    assert forall i :: n <= i < |p| - 1 ==> IsParked(s, p[i]);
    PathRest(s, s', p, n);
  }

  lemma {:induction false} RunCarries(ss: seq<State>, es: seq<Event>, i: nat, j: nat, p: seq<nat>, u: nat)
    returns (n: nat)
    requires IsRun(ss, es) && i <= j <= |es| && OnItsWay(ss[i], p, u)
    requires forall x :: i <= x < j ==> LeavesAlone(es[x], u)
    ensures n < |p| && OnItsWay(ss[j], p[n..], u)
    ensures |p| > 1 && (exists x :: i <= x < j && es[x] == Return(p[0])) ==> n >= 1
    decreases j - i
  {
    if i == j {
      n := 0;
      assert p[0..] == p;
    } else {
      assert ss[i + 1] == Step(ss[i], es[i]);
      var n1 := StepCarries(ss[i], es[i], p, u);
      var n2 := RunCarries(ss, es, i + 1, j, p[n1..], u);
      n := n1 + n2;
      assert p[n1..][n2..] == p[n..];
    }
  }

  /** Between steps i and j every task that was parked and RUNNING at i gets to return. */
  ghost predicate Round(ss: seq<State>, es: seq<Event>, i: nat, j: nat)
    requires i <= j <= |es| < |ss|
  {
    forall t: nat :: IsParked(ss[i], t) && IsRunning(ss[i], t) ==> exists x :: i <= x < j && es[x] == Return(t)
  }

  /** Rounds delimited by the given step numbers. */
  ghost predicate Rounds(ss: seq<State>, es: seq<Event>, at: seq<nat>) {
    && |at| > 0 && |ss| == |es| + 1
    && (forall k :: 0 <= k < |at| ==> at[k] <= |es|)
    && (forall k :: 0 <= k < |at| - 1 ==> at[k] <= at[k + 1] && Round(ss, es, at[k], at[k + 1]))
  }

  lemma {:induction false} RoundsShorten(ss: seq<State>, es: seq<Event>, at: seq<nat>, p: seq<nat>, u: nat)
    returns (n: nat)
    requires IsRun(ss, es) && Rounds(ss, es, at) && OnItsWay(ss[at[0]], p, u)
    requires forall x :: at[0] <= x < |es| ==> LeavesAlone(es[x], u)
    ensures n < |p| && OnItsWay(ss[at[|at| - 1]], p[n..], u)
    ensures n >= |at| - 1 || n == |p| - 1
    decreases |at|
  {
    if |at| == 1 {
      n := 0;
      assert p[0..] == p;
    } else {
      assert at[0] <= at[0 + 1] && Round(ss, es, at[0], at[0 + 1]);
      var n1 := RunCarries(ss, es, at[0], at[1], p, u);
      if |p| > 1 { assert IsParked(ss[at[0]], p[0]); }
      RoundsTail(ss, es, at);
      hide Rounds, Round, OnItsWay;
      var n2 := RoundsShorten(ss, es, at[1..], p[n1..], u);
      n := n1 + n2;
      assert p[n1..][n2..] == p[n..];
    }
  }

  lemma RoundsTail(ss: seq<State>, es: seq<Event>, at: seq<nat>)
    requires Rounds(ss, es, at) && |at| > 1
    ensures Rounds(ss, es, at[1..])
  {
    hide Round;
    var rest := at[1..];
    forall k | 0 <= k < |rest| - 1 ensures rest[k] <= rest[k + 1] && Round(ss, es, rest[k], rest[k + 1]) {
      assert at[k + 1] <= at[k + 1 + 1] && Round(ss, es, at[k + 1], at[k + 1 + 1]);
    }
  }

  /** Spurious returns can close the tmp links to a cycle, and a path may go round it; but then
      there is a path that goes nowhere twice, no longer than there are tasks. */
  lemma {:induction false} ShortPath(s: State, p: seq<nat>, u: nat) returns (r: seq<nat>)
    requires OnItsWay(s, p, u) && u < |s.parked|
    ensures OnItsWay(s, r, u) && |r| <= |s.parked|
    decreases |p|
  {
    if i, j :| 0 <= i < j < |p| && p[i] == p[j] {
      var cut := p[..i] + p[j..];
      forall k | 0 <= k < |cut| - 1 ensures IsParked(s, cut[k]) && s.parked[cut[k]].value.tmp == Some(cut[k + 1]) {
        var x := if k < i then k else k - i + j;
        assert cut[k] == p[x] && IsParked(s, p[x]) && s.parked[p[x]].value.tmp == Some(p[x + 1]);
        assert cut[k + 1] == p[x + 1];
      }
      r := ShortPath(s, cut, u);
    } else {
      r := p;
      DistinctSize(p);
      forall k | 0 <= k < |p| ensures p[k] < |s.parked| { if k < |p| - 1 { assert IsParked(s, p[k]); } }
      var tasks := set t | t in p;
      SubsetSize(tasks, Below(|s.parked|));
    }
  }

  /** After wake_up, when the woken tasks return, every earlier sleeper of the queue is set
      RUNNING in turn, also one that has left sleep_on unwoken: at the latest after as many
      rounds as there are tasks. */
  lemma EverySleeperWakes(ss: seq<State>, es: seq<Event>, at: seq<nat>, q: nat, u: nat)
    requires IsRun(ss, es) && |es| > 0 && es[0] == WakeUp(q) && Inv(ss[0]) && SleptOn(ss[0], u, q)
    requires Rounds(ss, es, at) && at[0] == 1
    requires forall x :: 0 <= x < |es| ==> LeavesAlone(es[x], u)
    ensures |at| >= |ss[0].parked| ==> IsRunning(ss[at[|at| - 1]], u)
  {
    assert ss[0 + 1] == Step(ss[0], es[0]);
    var p := WakeUpReachesAll(ss[0], q, u);
    p := ShortPath(ss[1], p, u);
    var n := RoundsShorten(ss, es, at, p, u);
  }

  // ---- the routines themselves ----

  /** How sleep_on starts. */
  datatype Entry = Sleeps | NoQueue | Task0Panics

  class WaitQueues {
    const running: array<bool>
    const parked: array<Option<Parked>>   // the local variables of suspended tasks
    ghost var slept: seq<Option<nat>>
    const heads: array<Option<nat>>

    ghost function View(): State
      reads this, running, parked, heads
    {
      State(running[..], parked[..], slept, heads[..])
    }

    constructor (tasks: nat, queues: nat)
      ensures fresh(running) && fresh(parked) && fresh(heads)
      ensures View()
           == State(seq(tasks, _ => true), seq(tasks, _ => None), seq(tasks, _ => None), seq(queues, _ => None))
    {
      running := new bool[tasks](_ => true);
      parked := new Option<Parked>[tasks](_ => None);
      slept := seq(tasks, _ => None);
      heads := new Option<nat>[queues](_ => None);
      new;
      assert running[..] == seq(tasks, _ => true);
      assert parked[..] == seq(tasks, _ => None);
      assert heads[..] == seq(queues, _ => None);
    }

    /** sleep_on up to the call of schedule.  A null queue is ignored, and task 0 panics. */
    method Enter(t: nat, queue: Option<nat>) returns (r: Entry)
      requires queue.Some? && t != 0 ==> CanStep(View(), SleepOn(t, queue.value))
      modifies this`slept, running, parked, heads
      ensures r == if queue.None? then NoQueue else if t == 0 then Task0Panics else Sleeps
      ensures View() == if r.Sleeps? then Step(old(View()), SleepOn(t, queue.value)) else old(View())
    {
      if queue.None? { return NoQueue; }
      if t == 0 { return Task0Panics; }
      ghost var s := View();
      var q := queue.value;
      var tmp := heads[q];
      heads[q] := Some(t);
      running[t] := false;
      parked[t] := Some(Parked(q, tmp));
      slept := slept[t := Some(q)];
      assert running[..] == s.running[t := false] && parked[..] == s.parked[t := Some(Parked(q, tmp))];
      assert heads[..] == s.heads[q := Some(t)];
      return Sleeps;
    }

    /** sleep_on after schedule has returned. */
    method Leave(t: nat)
      requires CanStep(View(), Return(t))
      modifies running, parked
      ensures View() == Step(old(View()), Return(t))
    {
      ghost var s := View();
      var tmp := parked[t].value.tmp;
      if tmp.Some? { running[tmp.value] := true; }
      parked[t] := None;
      assert parked[..] == s.parked[t := None];
      assert running[..] == if tmp.Some? then s.running[tmp.value := true] else s.running;
    }

    /** wake_up; a null queue is ignored. */
    method WakeUpQueue(queue: Option<nat>)
      requires queue.Some? ==> CanStep(View(), WakeUp(queue.value))
      modifies running, heads
      ensures View() == if queue.Some? then Step(old(View()), WakeUp(queue.value)) else old(View())
    {
      if queue.None? { return; }
      ghost var s := View();
      var q := queue.value;
      if heads[q].Some? {
        running[heads[q].value] := true;
        heads[q] := None;
        assert View() == State(s.running[s.heads[q].value := true], s.parked, s.slept, s.heads[q := None]);
      }
    }
  }
}
