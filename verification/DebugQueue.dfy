/**
 The debugger message queue: a linked queue filled by the connection thread and drained by a paused
 isolate, and every interleaving of the two with service messages and interrupts.
 */
module DebugQueue {
  import opened Ring

  const MAX_INT32 := 0x7fff_ffff

  /** A debugger command; `resume` is what its handler returns. */
  datatype Msg = Msg(cmd: int, text: string, fd: int, resume: bool)

  /** Empty and oversized commands are dropped. */
  predicate Storable(m: Msg) {
    0 < |m.text| < MAX_INT32
  }

  /** How many messages HandlePendingMessages takes: up to and including the first resume request. */
  function Taken(q: seq<Msg>): (n: nat)
    ensures n <= |q| && (q != [] ==> n > 0)
  {
    if q == [] then 0 else if q[0].resume then 1 else 1 + Taken(q[1..])
  }

  function Resumes(q: seq<Msg>): bool {
    q != [] && (q[0].resume || Resumes(q[1..]))
  }

  /** Only the last message of a batch can be a resume request. */
  ghost predicate Batch(taken: seq<Msg>) {
    forall i :: 0 <= i < |taken| - 1 ==> !taken[i].resume
  }

  lemma {:induction false} TakenIsBatch(q: seq<Msg>)
    ensures Batch(q[..Taken(q)])
    ensures Resumes(q) <==> Taken(q) > 0 && q[Taken(q) - 1].resume
    ensures !Resumes(q) ==> Taken(q) == |q| && forall i :: 0 <= i < |q| ==> !q[i].resume
  {
    if q != [] && !q[0].resume {
      TakenIsBatch(q[1..]);
    }
  }

  lemma {:induction false} TakenFirst(q: seq<Msg>, k: nat)
    requires k < |q| && q[k].resume && forall i :: 0 <= i < k ==> !q[i].resume
    ensures Taken(q) == k + 1 && Resumes(q)
  {
    if k > 0 { TakenFirst(q[1..], k - 1); }
  }

  // ----- The linked queue -----

  class DbgMessage {
    const msg: Msg
    var next: DbgMessage?

    constructor (msg: Msg)
      ensures this.msg == msg && next == null
    {
      this.msg, next := msg, null;
    }
  }

  class DbgMsgQueue {
    var head: DbgMessage?
    var tail: DbgMessage?
    ghost var nodes: seq<DbgMessage>
    ghost var queue: seq<Msg>
    ghost var repr: set<DbgMessage>

    ghost predicate At(i: int)
      requires |nodes| == |queue|
      reads this, repr
    {
      0 <= i < |nodes| ==>
        && nodes[i] in repr && nodes[i].msg == queue[i]
        && nodes[i].next == (if i + 1 < |nodes| then nodes[i + 1] else null)
    }

    ghost predicate Valid()
      reads this, repr
    {
      && |nodes| == |queue|
      && (if nodes == [] then head == null && tail == null else head == nodes[0] && tail == nodes[|nodes| - 1])
      && Distinct(nodes)
      && forall i :: At(i)
    }

    constructor ()
      ensures Valid() && queue == [] && repr == {}
    {
      head, tail, nodes, queue, repr := null, null, [], [], {};
    }

    /** `notified` is whether the waiting isolate was notified: only when the queue was empty. */
    method AddMessage(m: Msg) returns (notified: bool)
      requires Valid()
      modifies this, repr
      ensures Valid() && queue == if Storable(m) then old(queue) + [m] else old(queue)
      ensures notified <==> Storable(m) && old(queue) == []
      ensures fresh(repr - old(repr))
    {
      notified := false;
      if Storable(m) {
        var msg := new DbgMessage(m);
        if head == null {
          assert tail == null;
          head, tail := msg, msg;
          notified := true;
        } else {
          assert tail != null && At(|nodes| - 1);
          tail.next := msg;
          tail := msg;
        }
        nodes, queue, repr := nodes + [msg], queue + [m], repr + {msg};
        forall i ensures At(i) {
          if i < |nodes| - 2 { assert old(At(i)); }
        }
      }
    }

    method HandlePendingMessages() returns (resumeRequested: bool, handled: seq<Msg>)
      requires Valid()
      modifies this
      ensures Valid() && repr == old(repr)
      ensures resumeRequested == Resumes(old(queue))
      ensures handled == old(queue)[..Taken(old(queue))] && queue == old(queue)[Taken(old(queue))..]
    {
      resumeRequested, handled := false, [];
      while head != null && !resumeRequested
        invariant Valid() && repr == old(repr)
        invariant |handled| <= |old(queue)| && handled == old(queue)[..|handled|] && queue == old(queue)[|handled|..]
        invariant if resumeRequested then Resumes(old(queue)) && |handled| == Taken(old(queue))
                  else Resumes(queue) == Resumes(old(queue)) && |handled| + Taken(queue) == Taken(old(queue))
        decreases |queue|, !resumeRequested
      {
        var msg := TakeHead();
        resumeRequested := msg.resume;
        handled := handled + [msg];
      }
    }

    /** Unlinks the first message. */
    method TakeHead() returns (m: Msg)
      requires Valid() && queue != []
      modifies this
      ensures Valid() && repr == old(repr) && m == old(queue)[0] && queue == old(queue)[1..]
    {
      assert At(0);
      m := head.msg;
      head := head.next;
      if head == null {
        tail := null;
      }
      nodes, queue := nodes[1..], queue[1..];
      forall i ensures At(i) {
        assert old(At(i + 1));
      }
    }
  }

  // ----- All interleavings -----

  /**
   Where the isolate is. It holds the queue lock while Checking for service messages and while
   Draining; InService, Waiting and Woken it does not.
   */
  datatype Place = Running | Checking | InService | Draining | Waiting | Woken

  datatype State = State(
    place: Place,
    queue: seq<Msg>,
    isRunning: bool,
    isInterrupted: bool,
    service: nat,          // service messages the VM holds for the isolate
    notifying: nat,        // posters that found the notify callback set and have yet to call Notify
    callback: bool,
    accepted: seq<Msg>,    // every message ever stored
    handled: seq<Msg>,     // every message ever handled
    pause: seq<Msg>,       // those handled in the current pause
    raised: nat)           // interrupts raised since the last MessageLoop exit

  const START := State(Running, [], true, false, 0, 0, false, [], [], [], 0)

  predicate LockFree(s: State) {
    !s.place.Checking? && !s.place.Draining?
  }

  datatype Step =
    | Add(m: Msg)
    | Interrupt
    | PostService
    | Notify
    | Pause
    | Check
    | Serve(count: nat, resume: bool)
    | Drain
    | Wake
    | SpuriousWake

  predicate Enabled(s: State, step: Step) {
    match step
    case Add(_) => LockFree(s)
    case Interrupt => LockFree(s)
    case PostService => true
    case Notify => LockFree(s) && s.notifying > 0
    case Pause => s.place.Running?
    case Check => s.place.Checking?
    case Serve(count, _) => s.place.InService? && count <= s.service
    case Drain => s.place.Draining?
    case Wake => s.place.Woken?
    case SpuriousWake => s.place.Waiting?
  }

  /** ml.Notify() wakes the isolate if it is waiting and is lost otherwise. */
  function Notified(s: State): State {
    if s.place.Waiting? then s.(place := Woken) else s
  }

  function ExitLoop(s: State): State {
    s.(place := Running, callback := false, isInterrupted := false, isRunning := true, raised := 0)
  }

  function Apply(s: State, step: Step): State
    requires Enabled(s, step)
  {
    match step
    case Add(m) =>
      if !Storable(m) then s
      else
        var s' := s.(queue := s.queue + [m], accepted := s.accepted + [m]);
        if s.queue == [] then Notified(s') else s'
    case Interrupt =>
      if s.isRunning && !s.isInterrupted then s.(isInterrupted := true, raised := s.raised + 1) else s
    case PostService =>
      s.(service := s.service + 1, notifying := if s.callback then s.notifying + 1 else s.notifying)
    case Notify => Notified(s.(notifying := s.notifying - 1))
    case Pause => s.(place := Checking, isRunning := false, callback := true, pause := [])
    case Check => s.(place := if s.service > 0 then InService else Draining)
    case Serve(count, resume) =>
      var s' := s.(service := s.service - count);
      if resume then ExitLoop(s') else s'.(place := Checking)
    case Drain =>
      var n := Taken(s.queue);
      var s' := s.(queue := s.queue[n..], handled := s.handled + s.queue[..n], pause := s.pause + s.queue[..n]);
      if Resumes(s.queue) then ExitLoop(s') else s'.(place := Waiting)
    case Wake => s.(place := Checking)
    case SpuriousWake => s.(place := Woken)
  }

  ghost predicate Inv(s: State) {
    && (s.isRunning <==> s.place.Running?)
    && (s.callback <==> !s.place.Running?)
    // No lost wakeup.
    && (s.place.Waiting? ==> s.queue == [])
    && (s.place.Waiting? || s.place.Draining? ==> s.service > 0 ==> s.notifying > 0)
    // Nothing is lost, duplicated or reordered.
    && s.accepted == s.handled + s.queue
    // A pause takes messages up to the first resume request, which ends it.
    && Batch(s.pause) && |s.pause| <= |s.handled| && s.pause == s.handled[|s.handled| - |s.pause|..]
    && (!s.place.Running? ==> forall i :: 0 <= i < |s.pause| ==> !s.pause[i].resume)
    // One interrupt at most between two exits.
    && s.raised == (if s.isInterrupted then 1 else 0)
  }

  /** What draining adds to a pause in which nothing has asked to resume yet. */
  lemma DrainedPause(pause: seq<Msg>, queue: seq<Msg>)
    requires forall i :: 0 <= i < |pause| ==> !pause[i].resume
    ensures var n := Taken(queue);
      var p := pause + queue[..n];
      && p + queue[n..] == pause + queue && Batch(p)
      && (Resumes(queue) <==> exists i :: 0 <= i < |queue| && queue[i].resume)
      && (if Resumes(queue) then p != [] && p[|p| - 1].resume
          else queue[n..] == [] && forall i :: 0 <= i < |p| ==> !p[i].resume)
  {
    TakenIsBatch(queue);
    var n := Taken(queue);
    if Resumes(queue) { assert queue[n - 1].resume; }
  }

  /** The handled messages end with those of the pause, before and after. */
  lemma DrainedSuffix(handled: seq<Msg>, pause: seq<Msg>, taken: seq<Msg>)
    requires |pause| <= |handled| && pause == handled[|handled| - |pause|..]
    ensures pause + taken == (handled + taken)[|handled + taken| - |pause + taken|..]
  {}

  lemma DrainKeepsInv(s: State)
    requires Inv(s) && s.place.Draining?
    ensures Inv(Apply(s, Drain))
  {
    var n := Taken(s.queue);
    DrainedPause(s.pause, s.queue);
    DrainedSuffix(s.handled, s.pause, s.queue[..n]);
    Resplit(s.handled, s.queue, n);
  }

  lemma Resplit<T>(a: seq<T>, b: seq<T>, n: nat)
    requires n <= |b|
    ensures (a + b[..n]) + b[n..] == a + b
  {}

  /** Every step of every actor keeps the invariant. */
  lemma StepKeepsInv(s: State, step: Step)
    requires Inv(s) && Enabled(s, step)
    ensures Inv(Apply(s, step))
  {
    if step.Drain? {
      DrainKeepsInv(s);
    } else if step.Add? && Storable(step.m) {
      assert s.accepted + [step.m] == s.handled + (s.queue + [step.m]);
    }
  }

  ghost predicate Runs(s: State, steps: seq<Step>, s': State)
    decreases steps
  {
    if steps == [] then s' == s else Enabled(s, steps[0]) && Runs(Apply(s, steps[0]), steps[1..], s')
  }

  lemma {:induction false} RunKeepsInv(s: State, steps: seq<Step>, s': State)
    requires Inv(s) && Runs(s, steps, s')
    ensures Inv(s')
    decreases steps
  {
    if steps != [] {
      StepKeepsInv(s, steps[0]);
      RunKeepsInv(Apply(s, steps[0]), steps[1..], s');
    }
  }

  /**
   In every interleaving: a waiting isolate has an empty queue, and if service messages are there
   a notification is on its way, although AddMessage notifies only an empty queue and the lock is
   released around service messages.
   */
  lemma NoLostWakeup(steps: seq<Step>, s: State)
    requires Runs(START, steps, s)
    ensures s.place.Waiting? ==> s.queue == [] && (s.service > 0 ==> s.notifying > 0)
  {
    RunKeepsInv(START, steps, s);
  }

  /** Over whole runs the messages handled, followed by those queued, are the messages accepted, in order. */
  lemma Fifo(steps: seq<Step>, s: State)
    requires Runs(START, steps, s)
    ensures s.handled + s.queue == s.accepted
  {
    RunKeepsInv(START, steps, s);
  }

  /** No interrupt is raised in a pause, and at most one between two exits of the loop. */
  lemma InterruptsBounded(steps: seq<Step>, s: State)
    requires Runs(START, steps, s)
    ensures s.raised <= 1
    ensures !s.place.Running? && LockFree(s) ==> Apply(s, Interrupt) == s
    ensures s.raised == 1 && LockFree(s) ==> Apply(s, Interrupt) == s
  {
    RunKeepsInv(START, steps, s);
  }

  /** The pause that leads from `s` to `s'` ends at the first resume request and leaves later messages queued. */
  ghost predicate StopsAtResume(s: State, s': State) {
    && (s'.place.Running? <==> exists i :: 0 <= i < |s.queue| && s.queue[i].resume)
    && s'.pause + s'.queue == s.pause + s.queue
    && Batch(s'.pause)
    && (if s'.place.Running? then s'.pause != [] && s'.pause[|s'.pause| - 1].resume else s'.queue == [])
  }

  lemma DrainStopsAtResume(s: State)
    requires s.place.Draining? && forall i :: 0 <= i < |s.pause| ==> !s.pause[i].resume
    ensures StopsAtResume(s, Apply(s, Drain))
  {
    DrainedPause(s.pause, s.queue);
  }

  lemma PauseStopsAtResume(steps: seq<Step>, s: State)
    requires Runs(START, steps, s) && s.place.Draining?
    ensures StopsAtResume(s, Apply(s, Drain))
  {
    RunKeepsInv(START, steps, s);
    DrainStopsAtResume(s);
  }

  // ----- What does happen -----

  /** A running isolate that was not interrupted since it last left the loop can be, and once only. */
  lemma InterruptRaises(steps: seq<Step>, s: State)
    requires Runs(START, steps, s) && s.place.Running? && s.raised == 0
    ensures Enabled(s, Interrupt) && Apply(s, Interrupt) == s.(isInterrupted := true, raised := 1)
    ensures Apply(Apply(s, Interrupt), Interrupt) == Apply(s, Interrupt)
  {
    RunKeepsInv(START, steps, s);
  }

  /** Whatever step leaves the loop, the isolate runs again and can be interrupted again. */
  lemma ExitRearms(steps: seq<Step>, s: State, step: Step)
    requires Runs(START, steps, s) && Enabled(s, step) && !s.place.Running? && Apply(s, step).place.Running?
    ensures var s' := Apply(s, step);
      s'.isRunning && !s'.callback && s'.raised == 0 && Enabled(s', Interrupt) && Apply(s', Interrupt).raised == 1
  {
    RunKeepsInv(START, steps, s);
  }

  /** A running isolate that reaches a breakpoint stops, with a new pause and asking to be notified. */
  lemma Stops(steps: seq<Step>, s: State)
    requires Runs(START, steps, s) && s.place.Running?
    ensures Enabled(s, Pause) && var s' := Apply(s, Pause);
      && !s'.place.Running? && !s'.place.Waiting? && !s'.isRunning && s'.callback && s'.pause == []
      && s'.queue == s.queue && s'.handled == s.handled && s'.service == s.service
  {}

  lemma PausedIsNotified(steps: seq<Step>, s: State)
    requires Runs(START, steps, s)
    ensures s.callback <==> !s.place.Running?
  {
    RunKeepsInv(START, steps, s);
  }

  /** A service message is there until it is served, and its poster is about to notify exactly during a pause. */
  lemma ServicePosted(steps: seq<Step>, s: State)
    requires Runs(START, steps, s)
    ensures Apply(s, PostService) ==
      s.(service := s.service + 1, notifying := s.notifying + if s.place.Running? then 0 else 1)
  {
    PausedIsNotified(steps, s);
  }

  /** A waiting isolate is woken by the first message stored, and by a notification of the VM. */
  lemma Wakes(steps: seq<Step>, s: State, m: Msg)
    requires Runs(START, steps, s) && s.place.Waiting?
    ensures Storable(m) ==> Apply(s, Add(m)) == s.(place := Woken, queue := [m], accepted := s.accepted + [m])
    ensures !Storable(m) ==> Apply(s, Add(m)) == s
    ensures s.notifying > 0 ==> Apply(s, Notify) == s.(place := Woken, notifying := s.notifying - 1)
  {
    NoLostWakeup(steps, s);
    WakesFrom(s, m);
  }

  lemma WakesFrom(s: State, m: Msg)
    requires s.place.Waiting? && s.queue == []
    ensures Storable(m) ==> Apply(s, Add(m)) == s.(place := Woken, queue := [m], accepted := s.accepted + [m])
    ensures !Storable(m) ==> Apply(s, Add(m)) == s
    ensures s.notifying > 0 ==> Apply(s, Notify) == s.(place := Woken, notifying := s.notifying - 1)
  {
    assert s.queue + [m] == [m];
  }

  lemma {:induction false} RunsStep(s: State, a: seq<Step>, s1: State, step: Step)
    requires Runs(s, a, s1) && Enabled(s1, step)
    ensures Runs(s, a + [step], Apply(s1, step))
    decreases a
  {
    if a == [] {
      assert [step][1..] == [] && a + [step] == [step];
    } else {
      assert (a + [step])[1..] == a[1..] + [step];
      RunsStep(Apply(s, a[0]), a[1..], s1, step);
    }
  }

  lemma RunsFirst(s: State, step: Step, rest: seq<Step>, s': State)
    requires Enabled(s, step) && Runs(Apply(s, step), rest, s')
    ensures Runs(s, [step] + rest, s')
  {
    assert ([step] + rest)[1..] == rest;
  }

  /** The steps that the isolate makes by itself. */
  predicate Own(step: Step) { step.Check? || step.Serve? || step.Drain? || step.Wake? }

  ghost predicate OwnRun(run: seq<Step>) {
    forall i :: 0 <= i < |run| ==> Own(run[i])
  }

  /** What the isolate does next on its way to the debug messages, and to the service messages. */
  function NextOwn(s: State): Step {
    match s.place
    case Woken => Wake
    case InService => Serve(s.service, false)
    case _ => Check
  }

  function Distance(s: State): nat {
    match s.place
    case Waiting => 4
    case Woken => 3
    case Checking => if s.service > 0 then 2 else 0
    case InService => 1
    case _ => 0
  }

  /** From a pause in which nothing waits for somebody else, the isolate itself gets to its debug messages. */
  lemma {:induction false} Drains(s: State) returns (run: seq<Step>, s': State)
    requires Inv(s) && !s.place.Running? && !s.place.Waiting?
    ensures Runs(s, run, s') && s'.place.Draining? && s'.queue == s.queue && s'.pause == s.pause && OwnRun(run)
    decreases Distance(s), s.place.Checking?
  {
    if s.place.Draining? {
      return [], s;
    }
    var step := NextOwn(s);
    StepKeepsInv(s, step);
    var rest;
    rest, s' := Drains(Apply(s, step));
    RunsFirst(s, step, rest, s');
    run := [step] + rest;
  }

  /**
   In every reachable state of a pause, if a resume request is queued the isolate can resume by steps of
   its own, having handled the messages up to the first such request and no other.
   */
  lemma ResumesOnRequest(steps: seq<Step>, s: State, k: nat) returns (run: seq<Step>, s': State)
    requires Runs(START, steps, s) && !s.place.Running? && k < |s.queue| && s.queue[k].resume
    requires forall i :: 0 <= i < k ==> !s.queue[i].resume
    ensures Runs(s, run, s') && s'.place.Running? && OwnRun(run)
    ensures s'.pause == s.pause + s.queue[..k + 1] && s'.queue == s.queue[k + 1..]
  {
    RunKeepsInv(START, steps, s);
    var a, s1 := Drains(s);
    DrainStopsAtResume(s1);
    RunsStep(s, a, s1, Drain);
    run, s' := a + [Drain], Apply(s1, Drain);
    TakenFirst(s.queue, k);
  }

  lemma {:induction false} ServesFrom(s: State) returns (run: seq<Step>, s': State)
    requires !s.place.Running? && !s.place.Draining? && s.service > 0 && (s.place.Waiting? ==> s.notifying > 0)
    ensures Runs(s, run, s') && s'.service == 0 && s'.queue == s.queue
    decreases Distance(s)
  {
    var step := if s.place.Waiting? then Notify else NextOwn(s);
    var s1 := Apply(s, step);
    var rest;
    if s.place.InService? {
      rest, s' := [], s1;
    } else {
      rest, s' := ServesFrom(s1);
    }
    RunsFirst(s, step, rest, s');
    run := [step] + rest;
  }

  /** In every reachable state of a pause that is not over, service messages can be served, all of them. */
  lemma ServesMessages(steps: seq<Step>, s: State) returns (run: seq<Step>, s': State)
    requires Runs(START, steps, s) && !s.place.Running? && !s.place.Draining? && s.service > 0
    ensures Runs(s, run, s') && s'.service == 0 && s'.queue == s.queue
  {
    RunKeepsInv(START, steps, s);
    run, s' := ServesFrom(s);
  }
}
