/** The reaction queue of one virtual machine.

    `Show` queues a reaction and starts a runner (a Shell) only if it found the queue empty;
    the runner leaves the head queued while it executes it. A step is what happens under one
    hold of the queue's mutex, so runs interleave at that granularity. */
module Reactions {
  import opened Results

  /** VMS_UNKNOWN, VMS_RESTORING and every other state. */
  datatype VmState = Unknown | Restoring | Plain(id: nat)

  datatype Reaction =
    | State(value: VmState)
    | PrepareToSwitch
    | Undefine(uuid: string)
    | Other(id: nat)

  /** A runner is about to look at the queue, or it executes what it saw at the head. */
  datatype Runner = Fresh | Executing(reaction: Reaction)

  /** `finished` and `shown` record history. `broken` is set when a runner finds no head to
      execute or nothing to dequeue. */
  datatype Board = Board(
    queue: seq<Reaction>,
    runners: seq<Runner>,
    finished: seq<Reaction>,
    shown: seq<Reaction>,
    broken: bool)

  const EMPTY := Board([], [], [], [], false)

  /** A reaction may itself call show: then `within` is the runner executing it. */
  datatype Step = Show(reaction: Reaction, within: Option<nat>) | Peek(runner: nat) | Finish(runner: nat)

  predicate Enabled(b: Board, s: Step) {
    match s
    case Show(_, None) => true
    case Show(_, Some(i)) => i < |b.runners| && b.runners[i].Executing?
    case Peek(i) => i < |b.runners| && b.runners[i].Fresh?
    case Finish(i) => i < |b.runners| && b.runners[i].Executing?
  }

  function Gone(b: Board, i: nat): Board
    requires i < |b.runners|
  {
    b.(runners := b.runners[..i] + b.runners[i + 1..])
  }

  function Next(b: Board, s: Step): Board
    requires Enabled(b, s)
  {
    match s
    case Show(r, _) =>
      b.(queue := b.queue + [r], shown := b.shown + [r],
         runners := if b.queue == [] then b.runners + [Fresh] else b.runners)
    case Peek(i) =>
      if b.queue == [] then
        Gone(b, i).(broken := true)
      else
        b.(runners := b.runners[i := Executing(b.queue[0])])
    case Finish(i) =>
      var b := b.(finished := b.finished + [b.runners[i].reaction]);
      if b.queue == [] then
        Gone(b, i).(broken := true)
      else
        var b := b.(queue := b.queue[1..]);
        if b.queue == [] then Gone(b, i) else b.(runners := b.runners[i := Fresh])
  }

  predicate Valid(b: Board, ss: seq<Step>)
    decreases |ss|
  {
    ss == [] || (Enabled(b, ss[0]) && Valid(Next(b, ss[0]), ss[1..]))
  }

  function Run(b: Board, ss: seq<Step>): Board
    requires Valid(b, ss)
    decreases |ss|
  {
    if ss == [] then b else Run(Next(b, ss[0]), ss[1..])
  }

  // ---------------------------------------------------------------- safety over runs

  ghost predicate Good(b: Board) {
    && !b.broken
    && b.shown == b.finished + b.queue
    && |b.runners| == (if b.queue == [] then 0 else 1)
    && forall i :: 0 <= i < |b.runners| && b.runners[i].Executing? ==> b.runners[i].reaction == b.queue[0]
  }

  lemma StepGood(b: Board, s: Step)
    requires Good(b) && Enabled(b, s)
    ensures Good(Next(b, s))
  {
    if s.Finish? {
      assert b.finished + b.queue == b.finished + [b.queue[0]] + b.queue[1..];
    }
  }

  lemma {:induction false} RunGood(b: Board, ss: seq<Step>)
    requires Good(b) && Valid(b, ss)
    ensures Good(Run(b, ss))
    decreases |ss|
  {
    if ss != [] {
      StepGood(b, ss[0]);
      RunGood(Next(b, ss[0]), ss[1..]);
    }
  }

  /** In every interleaving: a runner is alive exactly while something is queued and there
      is never a second one, so no two reactions overlap; a runner never finds the queue
      empty; what finished and what is queued are together what was shown, in order. */
  lemma OneRunner(ss: seq<Step>)
    requires Valid(EMPTY, ss)
    ensures var b := Run(EMPTY, ss);
            && |b.runners| <= 1
            && (|b.runners| == 1 <==> b.queue != [])
            && !b.broken
            && b.finished + b.queue == b.shown
  {
    RunGood(EMPTY, ss);
  }

  /** Whatever is executing comes right after everything shown before it has finished. */
  lemma EarlierFinished(ss: seq<Step>, i: nat)
    requires Valid(EMPTY, ss) && i < |Run(EMPTY, ss).runners| && Run(EMPTY, ss).runners[i].Executing?
    ensures var b := Run(EMPTY, ss);
            |b.finished| < |b.shown| && b.finished == b.shown[..|b.finished|]
            && b.runners[i].reaction == b.shown[|b.finished|]
  {
    RunGood(EMPTY, ss);
  }

  lemma {:induction false} ShownGrows(b: Board, ss: seq<Step>)
    requires Valid(b, ss)
    ensures b.shown <= Run(b, ss).shown
    decreases |ss|
  {
    if ss != [] {
      ShownGrows(Next(b, ss[0]), ss[1..]);
    }
  }

  /** A reaction shown in `b` finishes after everything shown before it, and nothing else has
      finished when it is the next to finish; then only it can be executing. */
  lemma FinishesInTurn(b: Board, r: Reaction, ss: seq<Step>)
    requires Good(b) && Valid(Next(b, Show(r, None)), ss)
    ensures var later := Run(Next(b, Show(r, None)), ss);
            && (later.finished <= b.shown || b.shown + [r] <= later.finished)
            && (|later.finished| == |b.shown| ==> later.finished == b.shown)
            && (forall i :: 0 <= i < |later.runners| && later.runners[i].Executing? ==>
                  |later.finished| < |later.shown| && later.runners[i].reaction == later.shown[|later.finished|] &&
                  (|later.finished| == |b.shown| ==> later.runners[i].reaction == r))
  {
    var next := Next(b, Show(r, None));
    StepGood(b, Show(r, None));
    RunGood(next, ss);
    ShownGrows(next, ss);
    var later := Run(next, ss);
    assert later.finished == later.shown[..|later.finished|];
    assert b.shown + [r] == later.shown[..|b.shown| + 1];
  }

  // ---------------------------------------------------------------- draining

  /** The steps runners still have to take if nothing more is shown. */
  function Work(b: Board): int {
    2 * |b.queue| - if |b.runners| == 1 && b.runners[0].Executing? then 1 else 0
  }

  function Shows(ss: seq<Step>): nat {
    if ss == [] then 0 else (if ss[0].Show? then 1 else 0) + Shows(ss[1..])
  }

  lemma StepWork(b: Board, s: Step)
    requires Good(b) && Enabled(b, s)
    ensures Work(Next(b, s)) == Work(b) + if s.Show? then 2 else -1
  {
    StepGood(b, s);
  }

  lemma {:induction false} WorkBalance(b: Board, ss: seq<Step>)
    requires Good(b) && Valid(b, ss)
    ensures |ss| - Shows(ss) == Work(b) + 2 * Shows(ss) - Work(Run(b, ss))
    decreases |ss|
  {
    if ss != [] {
      StepGood(b, ss[0]);
      StepWork(b, ss[0]);
      WorkBalance(Next(b, ss[0]), ss[1..]);
    }
  }

  /** While something is queued a runner can go on. */
  lemma NeverStuck(ss: seq<Step>)
    requires Valid(EMPTY, ss) && Run(EMPTY, ss).queue != []
    ensures Enabled(Run(EMPTY, ss), Peek(0)) || Enabled(Run(EMPTY, ss), Finish(0))
  {
    RunGood(EMPTY, ss);
  }

  /** A finite number of shows drains: runners take at most two steps for each, and exactly
      then everything shown has finished. */
  lemma Drains(ss: seq<Step>)
    requires Valid(EMPTY, ss)
    ensures |ss| - Shows(ss) <= 2 * Shows(ss)
    ensures |ss| - Shows(ss) == 2 * Shows(ss) <==> Run(EMPTY, ss).finished == Run(EMPTY, ss).shown
  {
    RunGood(EMPTY, ss);
    WorkBalance(EMPTY, ss);
    DrainedWork(Run(EMPTY, ss));
  }

  lemma DrainedWork(b: Board)
    requires Good(b)
    ensures Work(b) >= 0
    ensures Work(b) == 0 <==> b.finished == b.shown
  {
    assert b.finished == b.shown <==> |b.queue| == 0;
  }

  // ---------------------------------------------------------------- setState

  function Announcement(v: VmState): Reaction {
    if v.Restoring? then PrepareToSwitch else State(v)
  }

  /** The state a reaction tells the machine's clients; a switch stands for RESTORING. */
  function Told(r: Reaction): Option<VmState> {
    match r
    case State(v) => if v.Restoring? then None else Some(v)
    case PrepareToSwitch => Some(Restoring)
    case Undefine(_) => None
    case Other(_) => None
  }

  /** The states told by these reactions, in order. */
  function States(rs: seq<Reaction>): seq<VmState> {
    if rs == [] then [] else (if Told(rs[0]).Some? then [Told(rs[0]).value] else []) + States(rs[1..])
  }

  /** The requested states without those equal to the state stored by then, which is `last`
      to begin with. */
  function Changes(last: VmState, vs: seq<VmState>): seq<VmState>
    decreases |vs|
  {
    if vs == [] then []
    else (if vs[0] == last then [] else [vs[0]]) + Changes(vs[0], vs[1..])
  }

  /** A request is a change exactly when it differs from the one before it, and the first
      one when it differs from the stored state. */
  lemma {:induction false} AnnouncedNext(last: VmState, vs: seq<VmState>, v: VmState)
    ensures Changes(last, vs + [v]) ==
            Changes(last, vs) + if v == (if vs == [] then last else vs[|vs| - 1]) then [] else [v]
    decreases |vs|
  {
    if vs == [] {
      assert [v][1..] == [];
      assert Changes(v, []) == [];
    } else {
      assert (vs + [v])[0] == vs[0] && (vs + [v])[1..] == vs[1..] + [v];
      AnnouncedNext(vs[0], vs[1..], v);
    }
  }

  lemma {:induction false} StatesAppend(a: seq<Reaction>, b: seq<Reaction>)
    ensures States(a + b) == States(a) + States(b)
  {
    if a == [] {
      assert a + b == b;
    } else {
      var c, head := a + b, if Told(a[0]).Some? then [Told(a[0]).value] else [];
      assert c[0] == a[0] && c[1..] == a[1..] + b;
      StatesAppend(a[1..], b);
      assert States(c) == head + (States(a[1..]) + States(b)) == head + States(a[1..]) + States(b);
    }
  }

  /** One thread calls setState: it stores the state, and shows the reaction it then holds
      in a step of its own. Everything else that happens to the entry is `Elsewhere`. */
  datatype Act = Store(value: VmState) | Deliver | Elsewhere(step: Step)

  datatype World = World(board: Board, last: VmState, held: Option<Reaction>)

  predicate Allowed(w: World, a: Act) {
    match a
    case Store(_) => w.held.None?
    case Deliver => w.held.Some?
    case Elsewhere(s) => Enabled(w.board, s) && (s.Show? ==> Told(s.reaction).None?)
  }

  function Acted(w: World, a: Act): World
    requires Allowed(w, a)
  {
    match a
    case Store(v) => w.(last := v, held := if v == w.last then None else Some(Announcement(v)))
    case Deliver => w.(board := Next(w.board, Show(w.held.value, None)), held := None)
    case Elsewhere(s) => w.(board := Next(w.board, s))
  }

  /** `w` can be reached from a fresh entry by `acts`. */
  ghost predicate Reached(acts: seq<Act>, w: World)
    decreases |acts|
  {
    if acts == [] then
      w == World(EMPTY, Unknown, None)
    else
      var a := acts[|acts| - 1];
      exists v :: Reached(acts[..|acts| - 1], v) && Allowed(v, a) && w == Acted(v, a)
  }

  function Requests(acts: seq<Act>): seq<VmState>
    decreases |acts|
  {
    if acts == [] then []
    else
      var a := acts[|acts| - 1];
      Requests(acts[..|acts| - 1]) + if a.Store? then [a.value] else []
  }

  function Held(w: World): seq<VmState> {
    if w.held.Some? && Told(w.held.value).Some? then [Told(w.held.value).value] else []
  }

  ghost predicate InStep(w: World, requests: seq<VmState>) {
    && Good(w.board)
    && w.last == (if requests == [] then Unknown else requests[|requests| - 1])
    && States(w.board.shown) + Held(w) == Changes(Unknown, requests)
  }

  lemma ActInStep(w: World, a: Act, requests: seq<VmState>)
    requires InStep(w, requests) && Allowed(w, a)
    ensures InStep(Acted(w, a), requests + if a.Store? then [a.value] else [])
  {
    assert requests + [] == requests;
    match a
    case Store(v) => StoreInStep(w, v, requests);
    case Deliver => DeliverInStep(w, requests);
    case Elsewhere(s) =>
      StepGood(w.board, s);
      if s.Show? {
        StatesOne(w.board.shown, s.reaction);
        assert States(w.board.shown) + [] == States(w.board.shown);
      }
  }

  lemma DeliverInStep(w: World, requests: seq<VmState>)
    requires InStep(w, requests) && w.held.Some?
    ensures InStep(Acted(w, Deliver), requests)
  {
    var r, v := w.held.value, Acted(w, Deliver);
    StepGood(w.board, Show(r, None));
    StatesOne(w.board.shown, r);
    assert Held(v) == [] && States(v.board.shown) + [] == States(v.board.shown);
  }

  lemma StoreInStep(w: World, v: VmState, requests: seq<VmState>)
    requires InStep(w, requests) && w.held.None?
    ensures InStep(Acted(w, Store(v)), requests + [v])
  {
    AnnouncedNext(Unknown, requests, v);
    assert Held(w) == [] && States(w.board.shown) + [] == States(w.board.shown);
    assert (requests + [v])[|requests|] == v;
  }

  lemma StatesOne(shown: seq<Reaction>, r: Reaction)
    ensures States(shown + [r]) == States(shown) + if Told(r).Some? then [Told(r).value] else []
  {
    StatesAppend(shown, [r]);
    assert [r][1..] == [];
  }

  lemma {:induction false} DeliveryInvariant(acts: seq<Act>, w: World)
    requires Reached(acts, w)
    ensures InStep(w, Requests(acts))
    decreases |acts|
  {
    if acts != [] {
      var init, a := acts[..|acts| - 1], acts[|acts| - 1];
      var v :| Reached(init, v) && Allowed(v, a) && w == Acted(v, a);
      DeliveryInvariant(init, v);
      ActInStep(v, a, Requests(init));
    }
  }

  /** State delivery removes stutter: in every interleaving with other reactions and with
      the runners, the states told so far are a prefix of the requested states with repetitions
      of the stored state dropped, and all of them once the entry is idle. */
  lemma StatesDelivered(acts: seq<Act>, w: World)
    requires Reached(acts, w)
    ensures States(w.board.finished) <= Changes(Unknown, Requests(acts))
    ensures w.held.None? && w.board.runners == [] ==>
              States(w.board.finished) == Changes(Unknown, Requests(acts))
  {
    DeliveryInvariant(acts, w);
    StatesAppend(w.board.finished, w.board.queue);
    if w.board.runners == [] {
      assert w.board.finished == w.board.shown;
    }
  }

  // ---------------------------------------------------------------- implementation

  class Demonstrator {
    var queue: seq<Reaction>
    var runners: seq<Runner>
    var last: VmState
    ghost var finished: seq<Reaction>
    ghost var shown: seq<Reaction>
    ghost var broken: bool

    ghost function View(): Board
      reads this
    {
      Board(queue, runners, finished, shown, broken)
    }

    constructor ()
      ensures View() == EMPTY && last == Unknown
    {
      queue, runners, last := [], [], Unknown;
      finished, shown, broken := [], [], false;
    }

    method Show(reaction: Reaction)
      modifies this`queue, this`runners, this`shown
      ensures View() == Next(old(View()), Step.Show(reaction, None))
    {
      var idle := queue == [];
      queue, shown := queue + [reaction], shown + [reaction];
      if idle {
        runners := runners + [Fresh];
      }
    }

    /** Entry::setState */
    method SetState(value: VmState)
      modifies this`queue, this`runners, this`shown, this`last
      ensures last == value
      ensures value == old(last) ==> View() == old(View())
      ensures value != old(last) ==> View() == Next(old(View()), Step.Show(Announcement(value), None))
      ensures value != old(last) ==>
                shown == old(shown) + [if value == Restoring then PrepareToSwitch else State(value)]
    {
      if value == last {
        return;
      }
      if value.Restoring? {
        last := value;
        Show(PrepareToSwitch);
      } else {
        ChangeAndShow(value, State(value));
      }
    }

    /** Entry::changeAndExecute with the action that shows `reaction`. */
    method ChangeAndShow(value: VmState, reaction: Reaction)
      modifies this`queue, this`runners, this`shown, this`last
      ensures last == value
      ensures value == old(last) ==> View() == old(View())
      ensures value != old(last) ==> View() == Next(old(View()), Step.Show(reaction, None))
    {
      var was := last;
      last := value;
      if value != was {
        Show(reaction);
      }
    }

    /** The first hold of the mutex in Shell::run; false if there is no head. */
    method PeekHead() returns (found: bool)
      requires runners == [Fresh]
      modifies this`runners, this`broken
      ensures View() == Next(old(View()), Step.Peek(0))
      ensures found <==> queue != []
    {
      if queue == [] {
        runners, broken := [], true;
        return false;
      }
      runners := [Executing(queue[0])];
      return true;
    }

    /** The second one, when the reaction has returned; false if the runner ends. */
    method DequeueHead() returns (more: bool)
      requires Good(View()) && |runners| == 1 && runners[0].Executing?
      modifies this`queue, this`runners, this`finished
      ensures View() == Next(old(View()), Step.Finish(0)) && Good(View())
      ensures queue == old(queue)[1..] && more == (queue != []) && runners == if more then [Fresh] else []
    {
      StepGood(View(), Step.Finish(0));
      finished := finished + [runners[0].reaction];
      queue := queue[1..];
      if queue == [] {
        runners := [];
        return false;
      }
      runners := [Fresh];
      return true;
    }

    /** One turn of the loop in Shell::run, with a reaction that shows `rs`. */
    method Turn(rs: seq<Reaction>) returns (more: bool)
      requires Good(View()) && runners == [Fresh]
      modifies this`queue, this`runners, this`shown, this`finished, this`broken
      ensures Good(View()) && runners == if more then [Fresh] else []
      ensures old(queue) != [] && queue == (old(queue) + rs)[1..] && more == (queue != [])
      ensures shown == old(shown) + rs
    {
      StepGood(View(), Step.Peek(0));
      var found := PeekHead();
      if !found {
        assert false;
      }
      ExecuteShows(rs);
      more := DequeueHead();
    }

    /** Shell::run for the only runner. The k-th reaction it executes shows `spawned[k]`;
        later reactions show nothing. */
    method RunShell(spawned: seq<seq<Reaction>>)
      requires Good(View()) && runners == [Fresh]
      modifies this
      ensures Good(View()) && queue == [] && runners == []
      ensures last == old(last)
      ensures exists k: nat :: k <= |spawned| && shown == old(shown) + Joined(spawned[..k]) && finished == shown
    {
      var k := 0;
      assert Joined(spawned[..0]) == [];
      ghost var todo := |Joined(spawned)| + |queue|;
      assert spawned[0..] == spawned;
      var more := true;
      while more
        invariant Good(View()) && runners == if more then [Fresh] else []
        invariant more == (queue != [])
        invariant 0 <= k <= |spawned| && last == old(last)
        invariant shown == old(shown) + Joined(spawned[..k])
        invariant todo == |Joined(spawned[k..])| + |queue|
        decreases todo
      {
        if k < |spawned| {
          JoinedSplit(spawned, k);
          more := Turn(spawned[k]);
          k := k + 1;
        } else {
          more := Turn([]);
        }
        todo := todo - 1;
      }
      assert finished + queue == finished;
    }

    method ExecuteShows(rs: seq<Reaction>)
      requires Good(View()) && |runners| == 1 && runners[0].Executing?
      modifies this`queue, this`runners, this`shown
      ensures Good(View()) && runners == old(runners)
      ensures queue == old(queue) + rs && shown == old(shown) + rs
    {
      for i := 0 to |rs|
        invariant Good(View()) && runners == old(runners)
        invariant queue == old(queue) + rs[..i] && shown == old(shown) + rs[..i]
      {
        Show(rs[i]);
        assert rs[..i + 1] == rs[..i] + [rs[i]];
      }
      assert rs[..|rs|] == rs;
    }
  }

  function Joined(rss: seq<seq<Reaction>>): seq<Reaction> {
    if rss == [] then [] else rss[0] + Joined(rss[1..])
  }

  lemma {:induction false} JoinedSplit(rss: seq<seq<Reaction>>, k: nat)
    requires k < |rss|
    ensures Joined(rss[..k + 1]) == Joined(rss[..k]) + rss[k]
    ensures Joined(rss[k..]) == rss[k] + Joined(rss[k + 1..])
  {
    if k == 0 {
      assert rss[..1] == [rss[0]] && rss[0..] == rss;
      assert Joined([rss[0]]) == rss[0] + Joined([]);
    } else {
      JoinedSplit(rss[1..], k - 1);
      assert rss[..k + 1][1..] == rss[1..][..k] && rss[..k][1..] == rss[1..][..k - 1];
      assert rss[k..] == rss[1..][k - 1..] && rss[k + 1..] == rss[1..][k..];
    }
  }
}
