/** The `flat_map` combinator: a parent becomes its stream, at most `fanOut` streams run at once, each in its
    own task, and the tasks hand their rows to the main loop over a bounded channel. The tasks and the loop
    interleave freely, so the combinator is a transition system: one step per await point. */
module FlatMap {
  import opened Text

  // ----- what the combinator is given -----

  /** What `read(parent)` resolves to: a stream, or the failure raised before it yields anything. */
  datatype Opened<+R, +C> = Stream(rows: seq<Result<R, C>>) | Failed(cause: C)

  /** A row of the output: a value, a stream item's own error, or an error wrapped with the parent's name. */
  datatype Item<+R, +C> = Row(row: R) | Bare(cause: C) | Context(reference: Text, cause: C)

  datatype Config<!A, +R, +C> = Config(
    parents: seq<Result<A, C>>, fanOut: nat, name: A -> Text, read: A -> Opened<R, C>)
  {
    /** `fan_out.max(1)`: the task limit and the channel's capacity. */
    function Limit(): nat {
      if fanOut < 1 then 1 else fanOut
    }
  }

  function Items<R, C>(rows: seq<Result<R, C>>): (items: seq<Item<R, C>>)
    ensures |items| == |rows|
    ensures forall k :: 0 <= k < |rows| ==>
      items[k] == match rows[k] case Ok(row) => Row(row) case Err(cause) => Bare(cause)
  {
    seq(|rows|, k requires 0 <= k < |rows| => match rows[k] case Ok(row) => Row(row) case Err(cause) => Bare(cause))
  }

  /** Everything parent `i` owes the output: its stream in order, or its one failure. */
  function Whole<A, R, C>(c: Config<A, R, C>, i: nat): seq<Item<R, C>>
    requires i < |c.parents|
  {
    match c.parents[i]
    case Err(cause) => [Bare(cause)]
    case Ok(parent) =>
      match c.read(parent)
      case Stream(rows) => Items(rows)
      case Failed(cause) => [Context(c.name(parent), cause)]
  }

  // ----- the state -----

  /** One parent the loop has taken. The first four are in the task set; all but `Returned` among them hold a
      clone of the sender. */
  datatype Job<+R, +C> =
    | Opening                                              // awaiting `read(parent)`
    | Streaming(rest: seq<Item<R, C>>)                     // awaiting the stream's next row
    | Sending(item: Item<R, C>, rest: seq<Item<R, C>>)     // awaiting room in the channel
    | Returned                                             // finished, not yet joined
    | Joined                                               // taken out of the task set
    | Rejected                                             // the parent record did not parse
  {
    predicate InSet() { Opening? || Streaming? || Sending? || Returned? }
    predicate HoldsSender() { Opening? || Streaming? || Sending? }
  }

  datatype Delivery<+R, +C> = Delivery(parent: nat, item: Item<R, C>)

  datatype Where = Idle | Filling | Selecting | Receiving | Ended

  datatype State<+R, +C> = State(
    jobs: seq<Job<R, C>>,            // one per parent taken so far
    queue: seq<Delivery<R, C>>,      // the channel
    done: bool,                      // the parents ended
    held: bool,                      // the loop still holds the original sender
    at: Where,                       // where the loop is
    out: seq<Delivery<R, C>>)        // what the consumer was given

  function Start<R, C>(): State<R, C> {
    State([], [], false, true, Idle, [])
  }

  function InSetCount<R, C>(jobs: seq<Job<R, C>>): nat {
    if jobs == [] then 0
    else InSetCount(jobs[..|jobs| - 1]) + if jobs[|jobs| - 1].InSet() then 1 else 0
  }

  predicate AnySender<R, C>(s: State<R, C>) {
    s.held || exists i :: 0 <= i < |s.jobs| && s.jobs[i].HoldsSender()
  }

  // ----- the steps -----

  datatype Step =
    | Ask                 // the consumer polls the stream
    | TakeParent          // the loop spawns the next parent's task
    | TakeRejected        // the loop yields the next parent's own error
    | ParentsEnd          // the parents are over: drop the sender
    | StopFilling
    | Receive             // the channel hands over a row
    | Close               // the channel reports that every sender is gone
    | Join(job: nat)
    | Open(job: nat)
    | Pull(job: nat)
    | Finish(job: nat)
    | Send(job: nat)

  predicate TaskStep(step: Step) {
    step.Open? || step.Pull? || step.Finish? || step.Send?
  }

  predicate MayFill<A, R, C>(c: Config<A, R, C>, s: State<R, C>) {
    s.at == Filling && InSetCount(s.jobs) < c.Limit() && !s.done
  }

  predicate Enabled<A, R, C>(c: Config<A, R, C>, s: State<R, C>, step: Step) {
    match step
    case Ask => s.at == Idle
    case TakeParent => MayFill(c, s) && |s.jobs| < |c.parents| && c.parents[|s.jobs|].Ok?
    case TakeRejected => MayFill(c, s) && |s.jobs| < |c.parents| && c.parents[|s.jobs|].Err?
    case ParentsEnd => MayFill(c, s) && |s.jobs| >= |c.parents|
    case StopFilling => s.at == Filling && !MayFill(c, s)
    case Receive => (s.at == Selecting || s.at == Receiving) && |s.queue| > 0
    case Close => (s.at == Selecting || s.at == Receiving) && |s.queue| == 0 && !AnySender(s)
    case Join(i) => s.at == Selecting && i < |s.jobs| && s.jobs[i].Returned?
    case Open(i) => i < |s.jobs| && i < |c.parents| && s.jobs[i].Opening? && c.parents[i].Ok?
    case Pull(i) => i < |s.jobs| && s.jobs[i].Streaming? && |s.jobs[i].rest| > 0
    case Finish(i) => i < |s.jobs| && s.jobs[i].Streaming? && |s.jobs[i].rest| == 0
    case Send(i) => i < |s.jobs| && s.jobs[i].Sending? && |s.queue| < c.Limit()
  }

  /** What a task goes on to do once `read(parent)` resolves. */
  function Resolved<A, R, C>(c: Config<A, R, C>, i: nat): Job<R, C>
    requires i < |c.parents| && c.parents[i].Ok?
  {
    match c.read(c.parents[i].value)
    case Stream(rows) => Streaming(Items(rows))
    case Failed(cause) => Sending(Context(c.name(c.parents[i].value), cause), [])
  }

  function Apply<A, R, C>(c: Config<A, R, C>, s: State<R, C>, step: Step): State<R, C>
    requires Enabled(c, s, step)
  {
    match step
    case Ask => s.(at := Filling)
    case TakeParent => s.(jobs := s.jobs + [Opening])
    case TakeRejected =>
      s.(jobs := s.jobs + [Rejected],
         out := s.out + [Delivery(|s.jobs|, Bare(c.parents[|s.jobs|].error))],
         at := Idle)
    case ParentsEnd => s.(done := true, held := false)
    case StopFilling => s.(at := if s.done && InSetCount(s.jobs) == 0 then Receiving else Selecting)
    case Receive => s.(out := s.out + [s.queue[0]], queue := s.queue[1..], at := Idle)
    case Close => s.(at := Ended)
    case Join(i) => s.(jobs := s.jobs[i := Joined], at := Filling)
    case Open(i) =>
      s.(jobs := s.jobs[i := Resolved(c, i)])
    case Pull(i) => s.(jobs := s.jobs[i := Sending(s.jobs[i].rest[0], s.jobs[i].rest[1..])])
    case Finish(i) => s.(jobs := s.jobs[i := Returned])
    case Send(i) =>
      s.(queue := s.queue + [Delivery(i, s.jobs[i].item)], jobs := s.jobs[i := Streaming(s.jobs[i].rest)])
  }

  /** A finite run: every step enabled where it is taken. */
  predicate Run<A, R, C>(c: Config<A, R, C>, s: State<R, C>, steps: seq<Step>)
    decreases |steps|
  {
    steps == [] || (Enabled(c, s, steps[0]) && Run(c, Apply(c, s, steps[0]), steps[1..]))
  }

  function After<A, R, C>(c: Config<A, R, C>, s: State<R, C>, steps: seq<Step>): State<R, C>
    requires Run(c, s, steps)
    decreases |steps|
  {
    if steps == [] then s else After(c, Apply(c, s, steps[0]), steps[1..])
  }

  // ----- what every step keeps -----

  function ItemsOf<R, C>(s: seq<Delivery<R, C>>, i: nat): seq<Item<R, C>> {
    if s == [] then []
    else ItemsOf(s[..|s| - 1], i) + if s[|s| - 1].parent == i then [s[|s| - 1].item] else []
  }

  function Unsent<A, R, C>(c: Config<A, R, C>, i: nat, job: Job<R, C>): seq<Item<R, C>>
    requires i < |c.parents|
  {
    match job
    case Opening => Whole(c, i)
    case Streaming(rest) => rest
    case Sending(item, rest) => [item] + rest
    case _ => []
  }

  /** What parent `i` has had delivered, has buffered, and has yet to send. */
  ghost function Owed<A, R, C>(c: Config<A, R, C>, s: State<R, C>, i: nat): seq<Item<R, C>>
    requires i < |s.jobs| <= |c.parents|
  {
    ItemsOf(s.out, i) + ItemsOf(s.queue, i) + Unsent(c, i, s.jobs[i])
  }

  /** Nothing is lost, duplicated or reordered within a parent. */
  ghost predicate Conserves<A, R, C>(c: Config<A, R, C>, s: State<R, C>)
    requires |s.jobs| <= |c.parents|
  {
    forall i :: 0 <= i < |s.jobs| ==> Owed(c, s, i) == Whole(c, i)
  }

  ghost predicate Tagged<R, C>(s: seq<Delivery<R, C>>, limit: nat) {
    forall k :: 0 <= k < |s| ==> s[k].parent < limit
  }

  ghost predicate Control<A, R, C>(c: Config<A, R, C>, s: State<R, C>) {
    && |s.jobs| <= |c.parents|
    && (forall i :: 0 <= i < |s.jobs| ==> (s.jobs[i].Rejected? <==> c.parents[i].Err?))
    && InSetCount(s.jobs) <= c.Limit()
    && |s.queue| <= c.Limit()
    && s.held == !s.done
    && (s.done ==> |s.jobs| == |c.parents|)
    && (s.at == Receiving ==> s.done && InSetCount(s.jobs) == 0)
    && (s.at == Selecting ==> InSetCount(s.jobs) > 0)
    && (s.at == Ended ==> s.done && |s.queue| == 0 && !AnySender(s))
    && Tagged(s.out, |s.jobs|) && Tagged(s.queue, |s.jobs|)
  }

  ghost predicate Inv<A, R, C>(c: Config<A, R, C>, s: State<R, C>) {
    Control(c, s) && Conserves(c, s)
  }

  lemma {:induction false} ItemsOfAppend<R, C>(s: seq<Delivery<R, C>>, d: Delivery<R, C>, i: nat)
    ensures ItemsOf(s + [d], i) == ItemsOf(s, i) + if d.parent == i then [d.item] else []
  {
    assert (s + [d])[..|s|] == s;
  }

  lemma {:induction false} ItemsOfHead<R, C>(s: seq<Delivery<R, C>>, i: nat)
    requires s != []
    ensures ItemsOf(s, i) == (if s[0].parent == i then [s[0].item] else []) + ItemsOf(s[1..], i)
  {
    if |s| == 1 {
      assert s[..0] == [] && s[1..] == [];
    } else {
      var front, last := s[..|s| - 1], s[|s| - 1];
      ItemsOfHead(front, i);
      assert s[1..][..|s| - 2] == front[1..] && s[1..][|s| - 2] == last;
      assert ItemsOf(s, i) == ItemsOf(front, i) + if last.parent == i then [last.item] else [];
    }
  }

  lemma {:induction false} ItemsOfBeyond<R, C>(s: seq<Delivery<R, C>>, limit: nat, i: nat)
    requires Tagged(s, limit) && limit <= i
    ensures ItemsOf(s, i) == []
  {
    if s != [] {
      ItemsOfBeyond(s[..|s| - 1], limit, i);
    }
  }

  lemma {:induction false} InSetCountUpdate<R, C>(jobs: seq<Job<R, C>>, i: nat, job: Job<R, C>)
    requires i < |jobs|
    ensures InSetCount(jobs[i := job]) ==
            InSetCount(jobs) + (if job.InSet() then 1 else 0) - (if jobs[i].InSet() then 1 else 0)
  {
    var n := |jobs| - 1;
    if i == n {
      assert jobs[i := job][..n] == jobs[..n];
    } else {
      InSetCountUpdate(jobs[..n], i, job);
      assert jobs[i := job][..n] == jobs[..n][i := job];
    }
  }

  lemma {:induction false} InSetCountAppend<R, C>(jobs: seq<Job<R, C>>, job: Job<R, C>)
    ensures InSetCount(jobs + [job]) == InSetCount(jobs) + if job.InSet() then 1 else 0
  {
    assert (jobs + [job])[..|jobs|] == jobs;
  }

  lemma {:induction false} InSetCountZero<R, C>(jobs: seq<Job<R, C>>)
    ensures InSetCount(jobs) == 0 <==> forall i :: 0 <= i < |jobs| ==> !jobs[i].InSet()
  {
    if jobs != [] {
      InSetCountZero(jobs[..|jobs| - 1]);
      assert forall i :: 0 <= i < |jobs| - 1 ==> jobs[..|jobs| - 1][i] == jobs[i];
    }
  }

  /** A task step, or a join, moves one job on and leaves the others alone. */
  ghost predicate Moves<A, R, C>(c: Config<A, R, C>, s: State<R, C>, t: State<R, C>, i: nat) {
    && i < |s.jobs| == |t.jobs| <= |c.parents|
    && t.jobs == s.jobs[i := t.jobs[i]]
    && s.jobs[i].InSet() && !t.jobs[i].Rejected? && (t.jobs[i].HoldsSender() ==> s.jobs[i].HoldsSender())
    && t.done == s.done && t.held == s.held && t.out == s.out
  }

  lemma {:induction false} TaskMoves<A, R, C>(c: Config<A, R, C>, s: State<R, C>, step: Step)
    requires |s.jobs| <= |c.parents| && Enabled(c, s, step) && (TaskStep(step) || step.Join?)
    ensures Moves(c, s, Apply(c, s, step), step.job)
    ensures s.jobs[step.job].HoldsSender() <==> !step.Join?
    ensures Apply(c, s, step).jobs[step.job].InSet() <==> !step.Join?
  {
  }

  lemma {:induction false} ControlTask<A, R, C>(c: Config<A, R, C>, s: State<R, C>, step: Step)
    requires Control(c, s) && Enabled(c, s, step) && (TaskStep(step) || step.Join?)
    ensures Control(c, Apply(c, s, step))
  {
    var t, i := Apply(c, s, step), step.job;
    TaskMoves(c, s, step);
    InSetCountUpdate(s.jobs, i, t.jobs[i]);
    if s.at == Ended {
      assert AnySender(s);
    }
    forall k | 0 <= k < |t.jobs| ensures t.jobs[k].Rejected? <==> c.parents[k].Err? {
      assert k != i ==> t.jobs[k] == s.jobs[k];
    }
  }

  lemma {:induction false} ControlTake<A, R, C>(c: Config<A, R, C>, s: State<R, C>, step: Step)
    requires Control(c, s) && Enabled(c, s, step) && (step.TakeParent? || step.TakeRejected?)
    ensures Control(c, Apply(c, s, step))
  {
    var t := Apply(c, s, step);
    InSetCountAppend(s.jobs, t.jobs[|s.jobs|]);
  }

  lemma {:induction false} ControlLoop<A, R, C>(c: Config<A, R, C>, s: State<R, C>, step: Step)
    requires Control(c, s) && Enabled(c, s, step)
    requires !TaskStep(step) && !step.Join? && !step.TakeParent? && !step.TakeRejected?
    ensures Control(c, Apply(c, s, step))
  {
    var t := Apply(c, s, step);
    assert t.jobs == s.jobs;
    if step.Receive? {
      assert Tagged(t.out, |s.jobs|);
      assert Tagged(t.queue, |s.jobs|);
    }
  }

  lemma {:induction false} ControlStep<A, R, C>(c: Config<A, R, C>, s: State<R, C>, step: Step)
    requires Control(c, s) && Enabled(c, s, step)
    ensures Control(c, Apply(c, s, step))
  {
    if TaskStep(step) || step.Join? {
      ControlTask(c, s, step);
    } else if step.TakeParent? || step.TakeRejected? {
      ControlTake(c, s, step);
    } else {
      ControlLoop(c, s, step);
    }
  }

  lemma {:induction false} Regroup<T>(out: seq<T>, a: seq<T>, b: seq<T>, x: seq<T>, y: seq<T>)
    requires x + y == a + b
    ensures out + x + y == out + a + b
  {
    assert out + x + y == out + (x + y);
    assert out + a + b == out + (a + b);
  }

  lemma {:induction false} OwedSend<A, R, C>(c: Config<A, R, C>, s: State<R, C>, job: nat, i: nat)
    requires i < |s.jobs| <= |c.parents| && Enabled(c, s, Send(job))
    ensures Owed(c, Apply(c, s, Send(job)), i) == Owed(c, s, i)
  {
    var t := Apply(c, s, Send(job));
    var item, rest := s.jobs[job].item, s.jobs[job].rest;
    ItemsOfAppend(s.queue, Delivery(job, item), i);
    if i == job {
      assert Unsent(c, i, t.jobs[i]) == rest && Unsent(c, i, s.jobs[i]) == [item] + rest;
      assert (ItemsOf(s.queue, i) + [item]) + rest == ItemsOf(s.queue, i) + ([item] + rest);
      Regroup(ItemsOf(s.out, i), ItemsOf(s.queue, i), Unsent(c, i, s.jobs[i]), ItemsOf(t.queue, i), rest);
    } else {
      assert t.jobs[i] == s.jobs[i];
    }
  }

  lemma {:induction false} OwedTask<A, R, C>(c: Config<A, R, C>, s: State<R, C>, step: Step, i: nat)
    requires i < |s.jobs| <= |c.parents|
    requires Enabled(c, s, step) && (TaskStep(step) || step.Join?)
    ensures |Apply(c, s, step).jobs| == |s.jobs| && Owed(c, Apply(c, s, step), i) == Owed(c, s, i)
  {
    var t := Apply(c, s, step);
    if step.Send? {
      OwedSend(c, s, step.job, i);
    } else {
      assert t.out == s.out && t.queue == s.queue;
      if i != step.job {
        assert t.jobs[i] == s.jobs[i];
      } else if step.Pull? {
        assert [s.jobs[i].rest[0]] + s.jobs[i].rest[1..] == s.jobs[i].rest;
      }
      assert Unsent(c, i, t.jobs[i]) == Unsent(c, i, s.jobs[i]);
    }
  }

  lemma {:induction false} HandOver<T>(out: seq<T>, head: seq<T>, queue: seq<T>, unsent: seq<T>)
    ensures (out + head) + queue + unsent == out + (head + queue) + unsent
  {
    assert (out + head) + queue == out + (head + queue);
  }

  lemma {:induction false} OwedReceive<A, R, C>(c: Config<A, R, C>, s: State<R, C>, i: nat)
    requires i < |s.jobs| <= |c.parents| && Enabled(c, s, Receive)
    ensures Owed(c, Apply(c, s, Receive), i) == Owed(c, s, i)
  {
    var t, d := Apply(c, s, Receive), s.queue[0];
    assert t.out == s.out + [d] && t.queue == s.queue[1..] && t.jobs == s.jobs;
    var head := if d.parent == i then [d.item] else [];
    ItemsOfAppend(s.out, d, i);
    ItemsOfHead(s.queue, i);
    HandOver(ItemsOf(s.out, i), head, ItemsOf(s.queue[1..], i), Unsent(c, i, s.jobs[i]));
  }

  lemma {:induction false} OwedTake<A, R, C>(c: Config<A, R, C>, s: State<R, C>, step: Step, i: nat)
    requires Control(c, s) && Enabled(c, s, step) && (step.TakeParent? || step.TakeRejected?)
    requires i <= |s.jobs| && (i < |s.jobs| ==> Owed(c, s, i) == Whole(c, i))
    ensures Owed(c, Apply(c, s, step), i) == Whole(c, i)
  {
    var t := Apply(c, s, step);
    if step.TakeRejected? {
      ItemsOfAppend(s.out, t.out[|s.out|], i);
    }
    if i == |s.jobs| {
      ItemsOfBeyond(s.out, |s.jobs|, i);
      ItemsOfBeyond(s.queue, |s.jobs|, i);
    } else {
      assert t.jobs[i] == s.jobs[i];
    }
  }

  lemma {:induction false} ConservesStep<A, R, C>(c: Config<A, R, C>, s: State<R, C>, step: Step)
    requires Inv(c, s) && Enabled(c, s, step) && |Apply(c, s, step).jobs| <= |c.parents|
    ensures Conserves(c, Apply(c, s, step))
  {
    var t := Apply(c, s, step);
    forall i | 0 <= i < |t.jobs| ensures Owed(c, t, i) == Whole(c, i) {
      assert i < |s.jobs| ==> Owed(c, s, i) == Whole(c, i);
      if TaskStep(step) || step.Join? {
        OwedTask(c, s, step, i);
      } else if step.TakeParent? || step.TakeRejected? {
        OwedTake(c, s, step, i);
      } else if step.Receive? {
        OwedReceive(c, s, i);
      }
    }
  }

  lemma {:induction false} InvStep<A, R, C>(c: Config<A, R, C>, s: State<R, C>, step: Step)
    requires Inv(c, s) && Enabled(c, s, step)
    ensures Inv(c, Apply(c, s, step))
  {
    ControlStep(c, s, step);
    ConservesStep(c, s, step);
  }

  lemma {:induction false} InvRun<A, R, C>(c: Config<A, R, C>, s: State<R, C>, steps: seq<Step>)
    requires Inv(c, s) && Run(c, s, steps)
    ensures Inv(c, After(c, s, steps))
    decreases |steps|
  {
    if steps != [] {
      InvStep(c, s, steps[0]);
      InvRun(c, Apply(c, s, steps[0]), steps[1..]);
    }
  }

  /** The tasks that run or wait to be joined. */
  function Tasks<R, C>(jobs: seq<Job<R, C>>): set<nat> {
    set i: nat | i < |jobs| && !jobs[i].Joined? && !jobs[i].Rejected?
  }

  lemma {:induction false} InSetCountIs<R, C>(jobs: seq<Job<R, C>>)
    ensures InSetCount(jobs) == |Tasks(jobs)|
  {
    if jobs != [] {
      var n := |jobs| - 1;
      InSetCountIs(jobs[..n]);
      assert Tasks(jobs) == Tasks(jobs[..n]) + if jobs[n].InSet() then {n} else {};
    }
  }

  /** What `fan_out` allows: that many, or one when it is zero. */
  predicate Within(n: nat, fanOut: nat) {
    n <= 1 || n <= fanOut
  }

  /** Safety, over every schedule: delivered rows, buffered rows and unsent rows make up each parent's whole
      stream in order, and neither the tasks nor the buffered rows are ever more than the fan-out. */
  lemma {:induction false} EveryScheduleConserves<A, R, C>(c: Config<A, R, C>, steps: seq<Step>)
    requires Run(c, Start(), steps)
    ensures
      var s := After(c, Start(), steps);
      && |s.jobs| <= |c.parents|
      && (forall i :: 0 <= i < |s.jobs| ==> Owed(c, s, i) == Whole(c, i))
      && (forall k :: 0 <= k < |s.out| ==> s.out[k].parent < |s.jobs|)
      && Within(|Tasks(s.jobs)|, c.fanOut) && Within(|s.queue|, c.fanOut)
  {
    InvRun(c, Start(), steps);
    InSetCountIs(After(c, Start(), steps).jobs);
  }

  /** What the consumer is owed of one parent, from what it reads: its own failure; the failure of its read under its
      name; or its rows in order, a failed row bare. */
  ghost predicate Delivered<A, R, C>(c: Config<A, R, C>, i: nat, items: seq<Item<R, C>>)
    requires i < |c.parents|
  {
    && (c.parents[i].Err? ==> items == [Bare(c.parents[i].error)])
    && (c.parents[i].Ok? && c.read(c.parents[i].value).Failed? ==>
          items == [Context(c.name(c.parents[i].value), c.read(c.parents[i].value).cause)])
    && (c.parents[i].Ok? && c.read(c.parents[i].value).Stream? ==>
          var rows := c.read(c.parents[i].value).rows;
          |items| == |rows| && forall k :: 0 <= k < |rows| ==>
            if rows[k].Ok? then items[k] == Row(rows[k].value) else items[k] == Bare(rows[k].error))
  }

  /** The stream never ends early: when it ends, every parent was taken and each one's whole stream delivered. */
  lemma {:induction false} EndsOnlyWhenDrained<A, R, C>(c: Config<A, R, C>, steps: seq<Step>)
    requires Run(c, Start(), steps) && After(c, Start(), steps).at == Ended
    ensures
      var s := After(c, Start(), steps);
      && |s.jobs| == |c.parents|
      && (forall i :: 0 <= i < |c.parents| ==> ItemsOf(s.out, i) == Whole(c, i))
      && (forall i :: 0 <= i < |c.parents| ==> Delivered(c, i, ItemsOf(s.out, i)))
  {
    InvRun(c, Start(), steps);
    var s := After(c, Start(), steps);
    forall i | 0 <= i < |c.parents| ensures ItemsOf(s.out, i) == Whole(c, i) {
      assert !s.jobs[i].HoldsSender();
      assert Owed(c, s, i) == Whole(c, i);
    }
  }

  lemma {:induction false} OnlyOpening<R, C>(jobs: seq<Job<R, C>>)
    requires forall i :: 0 <= i < |jobs| ==> jobs[i].Opening?
    ensures InSetCount(jobs) == |jobs|
  {
    if jobs != [] {
      OnlyOpening(jobs[..|jobs| - 1]);
    }
  }

  /** As many reads as the fan-out allows can be in flight at once. */
  lemma {:induction false} FanOutIsReached<A, R, C>(c: Config<A, R, C>, n: nat) returns (steps: seq<Step>)
    requires Within(n, c.fanOut) && n <= |c.parents| && forall i :: 0 <= i < n ==> c.parents[i].Ok?
    ensures Run(c, Start<R, C>(), steps)
    ensures
      var s := After(c, Start<R, C>(), steps);
      s.at == Filling && !s.done && |s.jobs| == n && forall i :: 0 <= i < n ==> s.jobs[i].Opening?
  {
    if n == 0 {
      steps := [Ask];
      assert [Ask][1..] == [];
    } else {
      var front := FanOutIsReached(c, n - 1);
      OnlyOpening(After(c, Start<R, C>(), front).jobs);
      RunSnoc(c, Start<R, C>(), front, TakeParent);
      steps := front + [TakeParent];
    }
  }

  /** The loop waits for rows or for its tasks only when it has taken every parent or has a full set of tasks. */
  lemma {:induction false} FillsFirst<A, R, C>(c: Config<A, R, C>, s: State<R, C>)
    requires Inv(c, s) && Enabled(c, s, StopFilling)
    ensures (s.done && |s.jobs| == |c.parents|) || |Tasks(s.jobs)| == if c.fanOut == 0 then 1 else c.fanOut
  {
    InSetCountIs(s.jobs);
  }

  // ----- progress -----

  /** Every state short of the end has an enabled step, so the loop and the tasks never wait on each other. */
  lemma {:induction false} NeverStuck<A, R, C>(c: Config<A, R, C>, s: State<R, C>) returns (step: Step)
    requires Inv(c, s) && s.at != Ended
    ensures Enabled(c, s, step)
  {
    InSetCountZero(s.jobs);
    if s.at == Idle {
      step := Ask;
    } else if s.at == Filling {
      if !MayFill(c, s) {
        step := StopFilling;
      } else if |s.jobs| >= |c.parents| {
        step := ParentsEnd;
      } else {
        step := if c.parents[|s.jobs|].Ok? then TakeParent else TakeRejected;
      }
    } else if |s.queue| > 0 {
      step := Receive;
    } else if s.at == Receiving {
      step := Close;
    } else {
      var i :| 0 <= i < |s.jobs| && s.jobs[i].InSet();
      match s.jobs[i]
      case Opening => step := Open(i);
      case Streaming(rest) => step := if |rest| == 0 then Finish(i) else Pull(i);
      case Sending(_, _) => step := Send(i);
      case Returned => step := Join(i);
    }
  }

  function JobWeight<A, R, C>(c: Config<A, R, C>, i: nat, job: Job<R, C>): nat
    requires i < |c.parents|
  {
    match job
    case Opening => 4 + 5 * |Whole(c, i)|
    case Streaming(rest) => 3 + 5 * |rest|
    case Sending(_, rest) => 7 + 5 * |rest|
    case Returned => 2
    case _ => 0
  }

  function JobsWeight<A, R, C>(c: Config<A, R, C>, jobs: seq<Job<R, C>>): nat
    requires |jobs| <= |c.parents|
  {
    if jobs == [] then 0
    else JobsWeight(c, jobs[..|jobs| - 1]) + JobWeight(c, |jobs| - 1, jobs[|jobs| - 1])
  }

  function UntakenWeight<A, R, C>(c: Config<A, R, C>, from: nat): nat
    requires from <= |c.parents|
    decreases |c.parents| - from
  {
    if from == |c.parents| then 0 else 5 + 5 * |Whole(c, from)| + UntakenWeight(c, from + 1)
  }

  function WhereWeight(at: Where): nat {
    match at
    case Idle => 3
    case Filling => 2
    case Selecting => 1
    case Receiving => 1
    case Ended => 0
  }

  /** An upper bound on the steps left. */
  function Work<A, R, C>(c: Config<A, R, C>, s: State<R, C>): nat
    requires |s.jobs| <= |c.parents|
  {
    JobsWeight(c, s.jobs) + UntakenWeight(c, |s.jobs|) + 3 * |s.queue| + (if s.done then 0 else 1) + WhereWeight(s.at)
  }

  lemma {:induction false} JobsWeightUpdate<A, R, C>(c: Config<A, R, C>, jobs: seq<Job<R, C>>, i: nat, job: Job<R, C>)
    requires i < |jobs| <= |c.parents|
    ensures JobsWeight(c, jobs[i := job]) == JobsWeight(c, jobs) + JobWeight(c, i, job) - JobWeight(c, i, jobs[i])
  {
    var n := |jobs| - 1;
    if i == n {
      assert jobs[i := job][..n] == jobs[..n];
    } else {
      JobsWeightUpdate(c, jobs[..n], i, job);
      assert jobs[i := job][..n] == jobs[..n][i := job];
    }
  }

  lemma {:induction false} TaskWork<A, R, C>(c: Config<A, R, C>, s: State<R, C>, step: Step)
    requires |s.jobs| <= |c.parents|
    requires Enabled(c, s, step) && (TaskStep(step) || step.Join?)
    ensures |Apply(c, s, step).jobs| == |s.jobs|
    ensures Work(c, Apply(c, s, step)) < Work(c, s)
  {
    var t, i := Apply(c, s, step), step.job;
    TaskMoves(c, s, step);
    JobsWeightUpdate(c, s.jobs, i, t.jobs[i]);
    assert JobWeight(c, i, t.jobs[i]) + 3 * |t.queue| + WhereWeight(t.at) <
           JobWeight(c, i, s.jobs[i]) + 3 * |s.queue| + WhereWeight(s.at);
  }

  lemma {:induction false} TakeWork<A, R, C>(c: Config<A, R, C>, s: State<R, C>, step: Step)
    requires Enabled(c, s, step) && (step.TakeParent? || step.TakeRejected?)
    ensures |Apply(c, s, step).jobs| == |s.jobs| + 1 <= |c.parents|
    ensures Work(c, Apply(c, s, step)) < Work(c, s)
  {
    var t, n := Apply(c, s, step), |s.jobs|;
    assert t.jobs[..n] == s.jobs;
    assert JobsWeight(c, t.jobs) == JobsWeight(c, s.jobs) + JobWeight(c, n, t.jobs[n]);
    assert UntakenWeight(c, n) == 5 + 5 * |Whole(c, n)| + UntakenWeight(c, n + 1);
  }

  /** Every step uses up work, so every run is finite even if the consumer asks at every chance. */
  lemma {:induction false} WorkDecreases<A, R, C>(c: Config<A, R, C>, s: State<R, C>, step: Step)
    requires Inv(c, s) && Enabled(c, s, step)
    ensures |Apply(c, s, step).jobs| <= |c.parents|
    ensures Work(c, Apply(c, s, step)) < Work(c, s)
  {
    if TaskStep(step) || step.Join? {
      TaskWork(c, s, step);
    } else if step.TakeParent? || step.TakeRejected? {
      TakeWork(c, s, step);
    } else {
      assert Apply(c, s, step).jobs == s.jobs;
    }
  }

  lemma {:induction false} RunWithinWork<A, R, C>(c: Config<A, R, C>, s: State<R, C>, steps: seq<Step>)
    requires Inv(c, s) && Run(c, s, steps)
    ensures |steps| <= Work(c, s)
    decreases |steps|
  {
    if steps != [] {
      InvStep(c, s, steps[0]);
      WorkDecreases(c, s, steps[0]);
      RunWithinWork(c, Apply(c, s, steps[0]), steps[1..]);
    }
  }

  /** Liveness, over every schedule: while the consumer keeps asking, a run can only stop once the stream has
      ended with every parent's whole stream delivered, and no run is longer than the initial work. */
  lemma {:induction false} EveryScheduleDelivers<A, R, C>(c: Config<A, R, C>, steps: seq<Step>)
    requires Run(c, Start(), steps)
    ensures |steps| <= Work(c, Start<R, C>())
    ensures
      var s := After(c, Start(), steps);
      (forall step :: !Enabled(c, s, step)) ==>
        s.at == Ended && forall i :: 0 <= i < |c.parents| ==> Delivered(c, i, ItemsOf(s.out, i))
  {
    RunWithinWork(c, Start(), steps);
    InvRun(c, Start(), steps);
    var s := After(c, Start(), steps);
    if forall step :: !Enabled(c, s, step) {
      if s.at != Ended {
        var step := NeverStuck(c, s);
        assert false;
      }
      EndsOnlyWhenDrained(c, steps);
    }
  }

  // ----- a stalled consumer -----

  /** No task can go on without the loop. */
  ghost predicate TasksRest<A, R, C>(c: Config<A, R, C>, s: State<R, C>) {
    forall step :: TaskStep(step) ==> !Enabled(c, s, step)
  }

  /** Every task left waits for room in a full channel; none waits for `read` or a row. */
  predicate BlockedOnWrites<A, R, C>(c: Config<A, R, C>, s: State<R, C>) {
    forall i :: 0 <= i < |s.jobs| && s.jobs[i].HoldsSender() ==>
      s.jobs[i].Sending? && |s.queue| == if c.fanOut == 0 then 1 else c.fanOut
  }

  predicate OnlyTasks(steps: seq<Step>) {
    forall k :: 0 <= k < |steps| ==> TaskStep(steps[k])
  }

  lemma {:induction false} RestIsBlocked<A, R, C>(c: Config<A, R, C>, s: State<R, C>)
    requires Inv(c, s)
    ensures TasksRest(c, s) <==> BlockedOnWrites(c, s)
  {
    if TasksRest(c, s) {
      forall i | 0 <= i < |s.jobs| && s.jobs[i].HoldsSender()
        ensures s.jobs[i].Sending? && |s.queue| == c.Limit()
      {
        assert !Enabled(c, s, Open(i)) && !Enabled(c, s, Pull(i));
        assert !Enabled(c, s, Finish(i)) && !Enabled(c, s, Send(i));
      }
    }
  }

  lemma {:induction false} RunSnoc<A, R, C>(c: Config<A, R, C>, s: State<R, C>, steps: seq<Step>, step: Step)
    requires Run(c, s, steps) && Enabled(c, After(c, s, steps), step)
    ensures Run(c, s, steps + [step])
    ensures After(c, s, steps + [step]) == Apply(c, After(c, s, steps), step)
    decreases |steps|
  {
    if steps == [] {
      EmptyUnit([step]);
      assert [step][1..] == [];
    } else {
      RunSnoc(c, Apply(c, s, steps[0]), steps[1..], step);
      assert (steps + [step])[0] == steps[0] && (steps + [step])[1..] == steps[1..] + [step];
    }
  }

  /** Tasks left to themselves come to rest. */
  lemma {:induction false} TasksComeToRest<A, R, C>(c: Config<A, R, C>, s: State<R, C>, steps: seq<Step>)
    returns (more: seq<Step>)
    requires Inv(c, s) && Run(c, s, steps) && OnlyTasks(steps)
    ensures steps <= more && Run(c, s, more) && OnlyTasks(more) && TasksRest(c, After(c, s, more))
    decreases Work(c, s) - |steps|
  {
    var t := After(c, s, steps);
    if TasksRest(c, t) {
      more := steps;
    } else {
      var step :| TaskStep(step) && Enabled(c, t, step);
      RunSnoc(c, s, steps, step);
      RunWithinWork(c, s, steps + [step]);
      more := TasksComeToRest(c, s, steps + [step]);
    }
  }

  /** A stalled consumer leaves no read in flight. Whatever the tasks have done since it stalled, they can do no more
      than so many steps in all, and go on to a state where none can; and that is exactly a state where each one has
      returned or waits for room in a full channel. */
  lemma {:induction false} StalledConsumerBlocksOnWrites<A, R, C>(
    c: Config<A, R, C>, s: State<R, C>, steps: seq<Step>) returns (more: seq<Step>)
    requires Inv(c, s) && Run(c, s, steps) && OnlyTasks(steps)
    ensures |steps| <= Work(c, s)
    ensures TasksRest(c, After(c, s, steps)) <==> BlockedOnWrites(c, After(c, s, steps))
    ensures steps <= more && Run(c, s, more) && OnlyTasks(more)
    ensures TasksRest(c, After(c, s, more)) && BlockedOnWrites(c, After(c, s, more))
  {
    RunWithinWork(c, s, steps);
    InvRun(c, s, steps);
    RestIsBlocked(c, After(c, s, steps));
    more := TasksComeToRest(c, s, steps);
    InvRun(c, s, more);
    RestIsBlocked(c, After(c, s, more));
  }

  // ----- one stream at a time -----

  /** The deliveries of the parents that parsed, in order. */
  function Accepted<A, R, C>(c: Config<A, R, C>, s: seq<Delivery<R, C>>): seq<Item<R, C>> {
    if s == [] then []
    else
      var last := s[|s| - 1];
      Accepted(c, s[..|s| - 1]) + if last.parent < |c.parents| && c.parents[last.parent].Ok? then [last.item] else []
  }

  function AllUnsent<A, R, C>(c: Config<A, R, C>, jobs: seq<Job<R, C>>): seq<Item<R, C>>
    requires |jobs| <= |c.parents|
  {
    if jobs == [] then []
    else AllUnsent(c, jobs[..|jobs| - 1]) + Unsent(c, |jobs| - 1, jobs[|jobs| - 1])
  }

  /** The sequential program: the streams of the first `n` parents that parsed, one after the other. */
  function Sequential<A, R, C>(c: Config<A, R, C>, n: nat): seq<Item<R, C>>
    requires n <= |c.parents|
  {
    if n == 0 then []
    else Sequential(c, n - 1) + if c.parents[n - 1].Ok? then Whole(c, n - 1) else []
  }

  ghost predicate InOrder<A, R, C>(c: Config<A, R, C>, s: State<R, C>)
    requires |s.jobs| <= |c.parents|
  {
    Accepted(c, s.out) + Accepted(c, s.queue) + AllUnsent(c, s.jobs) == Sequential(c, |s.jobs|)
  }

  lemma {:induction false} AcceptedAppend<A, R, C>(c: Config<A, R, C>, s: seq<Delivery<R, C>>, d: Delivery<R, C>)
    ensures Accepted(c, s + [d]) ==
            Accepted(c, s) + if d.parent < |c.parents| && c.parents[d.parent].Ok? then [d.item] else []
  {
    assert (s + [d])[..|s|] == s;
  }

  lemma {:induction false} AcceptedHead<A, R, C>(c: Config<A, R, C>, s: seq<Delivery<R, C>>)
    requires s != []
    ensures Accepted(c, s) ==
            (if s[0].parent < |c.parents| && c.parents[s[0].parent].Ok? then [s[0].item] else []) + Accepted(c, s[1..])
  {
    if |s| == 1 {
      assert s[..0] == [] && s[1..] == [];
    } else {
      var front, last := s[..|s| - 1], s[|s| - 1];
      AcceptedHead(c, front);
      assert s[1..][..|s| - 2] == front[1..] && s[1..][|s| - 2] == last;
    }
  }

  lemma {:induction false} OnlyUnsent<A, R, C>(c: Config<A, R, C>, jobs: seq<Job<R, C>>, i: nat)
    requires i < |jobs| <= |c.parents|
    requires forall k :: 0 <= k < |jobs| && k != i ==> Unsent(c, k, jobs[k]) == []
    ensures AllUnsent(c, jobs) == Unsent(c, i, jobs[i])
  {
    var n := |jobs| - 1;
    var front := jobs[..n];
    assert forall k :: 0 <= k < n ==> front[k] == jobs[k];
    if i < n {
      OnlyUnsent(c, front, i);
      EmptyUnit(Unsent(c, i, jobs[i]));
    } else {
      NoUnsent(c, front);
      EmptyUnit(Unsent(c, i, jobs[i]));
    }
  }

  lemma {:induction false} NoUnsent<A, R, C>(c: Config<A, R, C>, jobs: seq<Job<R, C>>)
    requires |jobs| <= |c.parents|
    requires forall k :: 0 <= k < |jobs| ==> Unsent(c, k, jobs[k]) == []
    ensures AllUnsent(c, jobs) == []
  {
    if jobs != [] {
      var n := |jobs| - 1;
      assert forall k :: 0 <= k < n ==> jobs[..n][k] == jobs[k];
      NoUnsent(c, jobs[..n]);
    }
  }

  /** With a limit of one, every job other than the one in the task set has sent everything. */
  lemma {:induction false} OthersSent<A, R, C>(c: Config<A, R, C>, jobs: seq<Job<R, C>>, i: nat)
    requires i < |jobs| <= |c.parents|
    requires jobs[i].InSet() && InSetCount(jobs) <= 1
    ensures forall k :: 0 <= k < |jobs| && k != i ==> !jobs[k].InSet() && Unsent(c, k, jobs[k]) == []
  {
    var rest := jobs[i := Joined];
    InSetCountUpdate(jobs, i, Joined);
    InSetCountZero(rest);
    assert forall k :: 0 <= k < |jobs| && k != i ==> rest[k] == jobs[k];
  }

  lemma {:induction false} SendKeepsItems<A, R, C>(c: Config<A, R, C>, s: State<R, C>, i: nat)
    requires Control(c, s) && Enabled(c, s, Send(i))
    ensures
      var t := Apply(c, s, Send(i));
      |t.jobs| == |s.jobs|
      && Accepted(c, t.queue) + Unsent(c, i, t.jobs[i]) == Accepted(c, s.queue) + Unsent(c, i, s.jobs[i])
  {
    var item, rest := s.jobs[i].item, s.jobs[i].rest;
    AcceptedAppend(c, s.queue, Delivery(i, item));
    Associate(Accepted(c, s.queue), [item], rest);
  }

  lemma {:induction false} TaskKeepsItems<A, R, C>(c: Config<A, R, C>, s: State<R, C>, step: Step)
    requires Control(c, s) && Enabled(c, s, step) && (TaskStep(step) || step.Join?)
    ensures |Apply(c, s, step).jobs| == |s.jobs|
    ensures
      var t := Apply(c, s, step);
      Accepted(c, t.queue) + Unsent(c, step.job, t.jobs[step.job]) ==
      Accepted(c, s.queue) + Unsent(c, step.job, s.jobs[step.job])
  {
    var t, i := Apply(c, s, step), step.job;
    if step.Send? {
      SendKeepsItems(c, s, i);
    } else if step.Pull? {
      assert [s.jobs[i].rest[0]] + s.jobs[i].rest[1..] == s.jobs[i].rest;
    } else {
      assert t.queue == s.queue;
    }
  }

  lemma {:induction false} MovedIsOnlyUnsent<A, R, C>(c: Config<A, R, C>, s: State<R, C>, t: State<R, C>, i: nat)
    requires InSetCount(s.jobs) <= 1 && Moves(c, s, t, i)
    ensures AllUnsent(c, s.jobs) == Unsent(c, i, s.jobs[i])
    ensures AllUnsent(c, t.jobs) == Unsent(c, i, t.jobs[i])
  {
    OthersSent(c, s.jobs, i);
    OnlyUnsent(c, s.jobs, i);
    forall k | 0 <= k < |s.jobs| && k != i ensures Unsent(c, k, t.jobs[k]) == [] {
      assert t.jobs[k] == s.jobs[k] && Unsent(c, k, s.jobs[k]) == [];
    }
    OnlyUnsent(c, t.jobs, i);
  }

  lemma {:induction false} InOrderTaskStep<A, R, C>(c: Config<A, R, C>, s: State<R, C>, step: Step)
    requires Control(c, s) && c.Limit() == 1 && InOrder(c, s)
    requires Enabled(c, s, step) && (TaskStep(step) || step.Join?)
    ensures |Apply(c, s, step).jobs| == |s.jobs| && InOrder(c, Apply(c, s, step))
  {
    var t, i := Apply(c, s, step), step.job;
    TaskMoves(c, s, step);
    TaskKeepsItems(c, s, step);
    MovedIsOnlyUnsent(c, s, t, i);
    Regroup(
      Accepted(c, s.out), Accepted(c, s.queue), Unsent(c, i, s.jobs[i]),
      Accepted(c, t.queue), Unsent(c, i, t.jobs[i]));
  }

  lemma {:induction false} LastUnsent<A, R, C>(c: Config<A, R, C>, jobs: seq<Job<R, C>>, job: Job<R, C>)
    requires |jobs| < |c.parents|
    requires forall k :: 0 <= k < |jobs| ==> Unsent(c, k, jobs[k]) == []
    ensures AllUnsent(c, jobs) == []
    ensures AllUnsent(c, jobs + [job]) == Unsent(c, |jobs|, job)
  {
    NoUnsent(c, jobs);
    assert (jobs + [job])[..|jobs|] == jobs;
  }

  lemma {:induction false} TakeKeepsItems<A, R, C>(c: Config<A, R, C>, s: State<R, C>, step: Step)
    requires Enabled(c, s, step) && (step.TakeParent? || step.TakeRejected?)
    ensures
      var t, n := Apply(c, s, step), |s.jobs|;
      && n < |t.jobs| <= |c.parents| && t.jobs == s.jobs + [t.jobs[n]]
      && t.queue == s.queue && Accepted(c, t.out) == Accepted(c, s.out)
      && Unsent(c, n, t.jobs[n]) == if c.parents[n].Ok? then Whole(c, n) else []
  {
    if step.TakeRejected? {
      AcceptedAppend(c, s.out, Apply(c, s, step).out[|s.out|]);
    }
  }

  lemma {:induction false} UnsentOfTaken<A, R, C>(c: Config<A, R, C>, s: State<R, C>, t: State<R, C>)
    requires |s.jobs| < |t.jobs| <= |c.parents| && InSetCount(s.jobs) == 0
    requires t.jobs == s.jobs + [t.jobs[|s.jobs|]]
    ensures AllUnsent(c, s.jobs) == []
    ensures AllUnsent(c, t.jobs) == Unsent(c, |s.jobs|, t.jobs[|s.jobs|])
  {
    InSetCountZero(s.jobs);
    NoUnsent(c, s.jobs);
    LastUnsent(c, s.jobs, t.jobs[|s.jobs|]);
  }

  lemma {:induction false} SequentialStep<A, R, C>(c: Config<A, R, C>, n: nat)
    requires n < |c.parents|
    ensures Sequential(c, n + 1) == Sequential(c, n) + if c.parents[n].Ok? then Whole(c, n) else []
  {
  }

  lemma {:induction false} InOrderTake<A, R, C>(c: Config<A, R, C>, s: State<R, C>, t: State<R, C>)
    requires |s.jobs| < |t.jobs| <= |c.parents| && InOrder(c, s) && InSetCount(s.jobs) == 0
    requires t.jobs == s.jobs + [t.jobs[|s.jobs|]]
    requires t.queue == s.queue && Accepted(c, t.out) == Accepted(c, s.out)
    requires Unsent(c, |s.jobs|, t.jobs[|s.jobs|]) == if c.parents[|s.jobs|].Ok? then Whole(c, |s.jobs|) else []
    ensures InOrder(c, t)
  {
    UnsentOfTaken(c, s, t);
    EmptyUnit(Accepted(c, s.out) + Accepted(c, s.queue));
    SequentialStep(c, |s.jobs|);
    assert |t.jobs| == |s.jobs| + 1;
  }

  lemma {:induction false} InOrderReceive<A, R, C>(c: Config<A, R, C>, s: State<R, C>)
    requires |s.jobs| <= |c.parents| && InOrder(c, s) && Enabled(c, s, Receive)
    ensures InOrder(c, Apply(c, s, Receive))
  {
    var t, d := Apply(c, s, Receive), s.queue[0];
    assert t.out == s.out + [d] && t.queue == s.queue[1..] && t.jobs == s.jobs;
    var head := if d.parent < |c.parents| && c.parents[d.parent].Ok? then [d.item] else [];
    AcceptedAppend(c, s.out, d);
    AcceptedHead(c, s.queue);
    HandOver(Accepted(c, s.out), head, Accepted(c, s.queue[1..]), AllUnsent(c, s.jobs));
  }

  lemma {:induction false} InOrderStep<A, R, C>(c: Config<A, R, C>, s: State<R, C>, step: Step)
    requires Control(c, s) && c.Limit() == 1 && InOrder(c, s) && Enabled(c, s, step)
    ensures |Apply(c, s, step).jobs| <= |c.parents| && InOrder(c, Apply(c, s, step))
  {
    if TaskStep(step) || step.Join? {
      InOrderTaskStep(c, s, step);
    } else if step.TakeParent? || step.TakeRejected? {
      TakeKeepsItems(c, s, step);
      InOrderTake(c, s, Apply(c, s, step));
    } else if step.Receive? {
      InOrderReceive(c, s);
    }
  }

  lemma {:induction false} InOrderRun<A, R, C>(c: Config<A, R, C>, s: State<R, C>, steps: seq<Step>)
    requires Inv(c, s) && c.Limit() == 1 && InOrder(c, s) && Run(c, s, steps)
    ensures |After(c, s, steps).jobs| <= |c.parents| && InOrder(c, After(c, s, steps))
    decreases |steps|
  {
    if steps != [] {
      InvStep(c, s, steps[0]);
      InOrderStep(c, s, steps[0]);
      InOrderRun(c, Apply(c, s, steps[0]), steps[1..]);
    }
  }

  /** With one stream in flight the rows come out exactly as the sequential program writes them. */
  lemma {:induction false} OneInFlightIsSequential<A, R, C>(c: Config<A, R, C>, steps: seq<Step>)
    requires c.fanOut <= 1
    requires Run(c, Start(), steps) && After(c, Start(), steps).at == Ended
    ensures Accepted(c, After(c, Start(), steps).out) == Sequential(c, |c.parents|)
  {
    InvRun(c, Start(), steps);
    InOrderRun(c, Start(), steps);
    var s := After(c, Start(), steps);
    assert forall k :: 0 <= k < |s.jobs| ==> !s.jobs[k].HoldsSender();
    NoUnsent(c, s.jobs);
  }
}
