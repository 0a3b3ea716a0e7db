/** What clients of the callback hub are told: a registered callback can notify until it is
    removed, a timeout only with an interval, and only free callbacks that were passed run. */
module CallbackNotices {
  import opened Results
  import opened CallbackHub
  import opened CallbackRuns

  /** The messages the hub's thread has handled after a run, in order, those in `d` before. */
  ghost function Heard(w: World, d: seq<Message>, ss: seq<Step>): seq<Message>
    requires Valid(w, ss)
    decreases |ss|
  {
    if ss == [] then d
    else Heard(Next(w, ss[0]), if ss[0].Handle? then d + [w.queue[0]] else d, ss[1..])
  }

  ghost function Delivered(ss: seq<Step>): seq<Message>
    requires Valid(START, ss)
  {
    Heard(START, [], ss)
  }

  /** The last interval set for an id. */
  function Interval(d: seq<Message>, id: int): Option<int>
    decreases |d|
  {
    if d == [] then None
    else
      var last := d[|d| - 1];
      if last.SetInterval? && last.id == id then Some(last.interval) else Interval(d[..|d| - 1], id)
  }

  ghost predicate Evented(d: seq<Message>, id: int) {
    exists e :: SetEvents(id, e) in d
  }

  predicate Ticks(d: seq<Message>, id: int) {
    Interval(d, id).Some? && Interval(d, id).value >= 0
  }

  // ---------------------------------------------------------------- the invariant

  /** A socket in the map may notify once events were set for it, a timeout as its last
      interval says; nothing is set for an id before it is added. */
  ghost predicate Set(t: Tables, d: seq<Message>) {
    && (forall id :: id in t.sockets ==> (t.sockets[id].armed <==> Evented(d, id)))
    && (forall id :: id in t.timeouts ==> (t.timeouts[id].armed <==> Ticks(d, id)))
    && (forall m :: m in d && (m.SetEvents? || m.SetInterval?) && m.id >= FIRST ==> !Untouched(t, m.id))
  }

  ghost predicate EventsComing(w: World, id: int) {
    exists e :: Pending(w, SetEvents(id, e))
  }

  ghost predicate IntervalComing(w: World, id: int) {
    exists x :: Pending(w, SetInterval(id, x))
  }

  /** What an add call promised to set is set or on its way. */
  ghost predicate Coming(w: World, d: seq<Message>) {
    && (forall m :: IsAdd(m) && Pending(w, m) ==> m.id >= FIRST)
    && (forall id :: id in w.tables.sockets || Pending(w, AddSocket(id)) ==> EventsComing(w, id) || Evented(d, id))
    && (forall id :: id in w.tables.timeouts || Pending(w, AddTimeout(id)) ==>
          IntervalComing(w, id) || Interval(d, id).Some?)
  }

  // ---------------------------------------------------------------- messages

  lemma IntervalNext(d: seq<Message>, m: Message, id: int)
    ensures Interval(d + [m], id) == if m.SetInterval? && m.id == id then Some(m.interval) else Interval(d, id)
    ensures Evented(d + [m], id) <==> Evented(d, id) || (m.SetEvents? && m.id == id)
  {
    assert (d + [m])[..|d|] == d;
    assert forall x :: x in d + [m] <==> x in d || x == m;
    if m.SetEvents? && m.id == id {
      assert m == SetEvents(id, m.events);
    }
  }

  lemma {:induction false} IntervalSet(d: seq<Message>, id: int)
    requires Interval(d, id).Some?
    ensures SetInterval(id, Interval(d, id).value) in d
    decreases |d|
  {
    var init, last := d[..|d| - 1], d[|d| - 1];
    assert d == init + [last];
    if last.SetInterval? && last.id == id {
      assert last == SetInterval(id, last.interval);
    } else {
      IntervalSet(init, id);
    }
  }

  /** A message that is not an add finds its id added, if the generator issued the id. */
  lemma HeadTouched(w: World)
    requires Ordered(w) && Issued(w) && w.queue != [] && !IsAdd(w.queue[0]) && w.queue[0].id >= FIRST
    ensures !Untouched(w.tables, w.queue[0].id)
  {
    var m := w.queue[0];
    assert forall j :: 0 <= j < |w.queue| && IsAdd(w.queue[j]) ==> w.queue[j].id != m.id;
    assert !Starting(w.calls, m.id);
    assert m.id in w.calls ==> forall i :: 0 <= i < |w.calls[m.id]| ==> !IsAdd(w.calls[m.id][i]);
    assert !Pending(w, AddSocket(m.id)) && !Pending(w, AddTimeout(m.id));
  }

  lemma AddedNow(t: Tables, d: seq<Message>, m: Message)
    requires Set(t, d) && IsAdd(m) && m.id >= FIRST && Untouched(t, m.id)
    ensures Set(Handled(t, m), d + [m])
  {
    forall id ensures Interval(d + [m], id) == Interval(d, id) && (Evented(d + [m], id) <==> Evented(d, id)) {
      IntervalNext(d, m, id);
    }
    assert !Evented(d, m.id);
    if Ticks(d, m.id) {
      IntervalSet(d, m.id);
      assert false;
    }
    assert forall x :: x in d + [m] <==> x in d || x == m;
    HandledTouches(t, m);
    StaysTouched(t, m);
  }

  lemma SetNow(t: Tables, d: seq<Message>, m: Message)
    requires Set(t, d) && !IsAdd(m) && (m.id >= FIRST ==> !Untouched(t, m.id))
    ensures Set(Handled(t, m), d + [m])
  {
    var r := Handled(t, m);
    forall id
      ensures id in r.sockets ==> (r.sockets[id].armed <==> Evented(d + [m], id))
      ensures id in r.timeouts ==> (r.timeouts[id].armed <==> Ticks(d + [m], id))
    {
      IntervalNext(d, m, id);
    }
    HandledTouches(t, m);
    if !Untouched(t, m.id) {
      StaysTouched(t, m);
    }
    assert forall x :: x in d + [m] <==> x in d || x == m;
  }

  /** An add at the head finds its id untouched. */
  lemma HeadUntouched(w: World)
    requires Ordered(w) && w.queue != [] && IsAdd(w.queue[0])
    ensures Untouched(w.tables, w.queue[0].id)
  {
  }

  lemma HandleSet(w: World, d: seq<Message>)
    requires Ordered(w) && Issued(w) && w.queue != [] && Set(w.tables, d)
    requires IsAdd(w.queue[0]) ==> w.queue[0].id >= FIRST
    ensures Set(Next(w, Handle).tables, d + [w.queue[0]])
  {
    var m := w.queue[0];
    if IsAdd(m) {
      HeadUntouched(w);
      AddedNow(w.tables, d, m);
    } else {
      if m.id >= FIRST {
        HeadTouched(w);
      }
      SetNow(w.tables, d, m);
    }
  }

  lemma HandleKept(w: World, m: Message)
    requires w.queue != [] && Pending(w, m)
    ensures m == w.queue[0] || Pending(Next(w, Handle), m)
  {
    HandlePending(w, m);
  }

  lemma EventsStillComing(w: World, d: seq<Message>, id: int)
    requires w.queue != [] && (EventsComing(w, id) || Evented(d, id))
    ensures EventsComing(Next(w, Handle), id) || Evented(d + [w.queue[0]], id)
  {
    IntervalNext(d, w.queue[0], id);
    if EventsComing(w, id) {
      var e :| Pending(w, SetEvents(id, e));
      HandleKept(w, SetEvents(id, e));
    }
  }

  lemma IntervalStillComing(w: World, d: seq<Message>, id: int)
    requires w.queue != [] && (IntervalComing(w, id) || Interval(d, id).Some?)
    ensures IntervalComing(Next(w, Handle), id) || Interval(d + [w.queue[0]], id).Some?
  {
    IntervalNext(d, w.queue[0], id);
    if IntervalComing(w, id) {
      var x :| Pending(w, SetInterval(id, x));
      HandleKept(w, SetInterval(id, x));
    }
  }

  /** The maps gain what is added, and nothing else. */
  lemma HandledKeys(t: Tables, m: Message)
    ensures forall k :: k in Handled(t, m).sockets ==> k in t.sockets || m == AddSocket(k)
    ensures forall k :: k in Handled(t, m).timeouts ==> k in t.timeouts || m == AddTimeout(k)
  {
  }

  lemma HandleComing(w: World, d: seq<Message>)
    requires w.queue != [] && Coming(w, d)
    ensures Coming(Next(w, Handle), d + [w.queue[0]])
  {
    var v, m := Next(w, Handle), w.queue[0];
    HandledKeys(w.tables, m);
    assert Pending(w, m);
    forall x | IsAdd(x) && Pending(v, x) ensures x.id >= FIRST {
      HandlePending(w, x);
    }
    forall id | id in v.tables.sockets || Pending(v, AddSocket(id))
      ensures EventsComing(v, id) || Evented(d + [m], id)
    {
      HandlePending(w, AddSocket(id));
      EventsStillComing(w, d, id);
    }
    forall id | id in v.tables.timeouts || Pending(v, AddTimeout(id))
      ensures IntervalComing(v, id) || Interval(d + [m], id).Some?
    {
      HandlePending(w, AddTimeout(id));
      IntervalStillComing(w, d, id);
    }
  }

  // ---------------------------------------------------------------- other steps

  /** An add that was not pending before comes with what it promises to set. */
  ghost predicate Accompanied(v: World, m: Message) {
    m.id >= FIRST && if m.AddSocket? then EventsComing(v, m.id) else IntervalComing(v, m.id)
  }

  lemma KeepsComing(w: World, v: World, d: seq<Message>)
    requires Coming(w, d)
    requires v.tables.sockets == w.tables.sockets && v.tables.timeouts == w.tables.timeouts
    requires forall m :: Pending(w, m) ==> Pending(v, m)
    requires forall m :: IsAdd(m) && Pending(v, m) ==> Pending(w, m) || Accompanied(v, m)
    ensures Coming(v, d)
  {
    forall id | EventsComing(w, id) ensures EventsComing(v, id) {
      var e :| Pending(w, SetEvents(id, e));
    }
    forall id | IntervalComing(w, id) ensures IntervalComing(v, id) {
      var x :| Pending(w, SetInterval(id, x));
    }
    forall id | Pending(v, AddSocket(id)) ensures EventsComing(v, id) || Evented(d, id) {
      assert IsAdd(AddSocket(id));
    }
    forall id | Pending(v, AddTimeout(id)) ensures IntervalComing(v, id) || Interval(d, id).Some? {
      assert IsAdd(AddTimeout(id));
    }
  }

  lemma CallComing(w: World, d: seq<Message>, free: bool, first: Message, third: Message)
    requires Good(w) && Coming(w, d)
    requires (first == AddSocket(w.next) && third.SetEvents?) || (first == AddTimeout(w.next) && third.SetInterval?)
    requires third.id == w.next
    ensures Coming(Called(w, free, [first, SetOpaque(w.next, free), third]), d)
  {
    var v := Called(w, free, [first, SetOpaque(w.next, free), third]);
    CallPending(w, free, first, third);
    assert Pending(v, third);
    assert third == if third.SetEvents? then SetEvents(w.next, third.events) else SetInterval(w.next, third.interval);
    assert Accompanied(v, first);
    KeepsComing(w, v, d);
  }

  lemma StepComing(w: World, s: Step, d: seq<Message>)
    requires Good(w) && Enabled(w, s) && !s.Handle? && Coming(w, d)
    ensures Coming(Next(w, s), d)
  {
    var v, id := Next(w, s), w.next;
    match s
    case CallSocket(free, events) => CallComing(w, d, free, AddSocket(id), SetEvents(id, events));
    case CallTimeout(free, interval) => CallComing(w, d, free, AddTimeout(id), SetInterval(id, interval));
    case Post(id) =>
      forall m ensures Pending(v, m) <==> Pending(w, m) {
        PostPending(w, id, m);
      }
      KeepsComing(w, v, d);
    case Send(x) =>
      assert forall m :: m in v.queue <==> m in w.queue || m == x;
      KeepsComing(w, v, d);
    case Notify(_) =>
    case _ =>
      TimersSound(w.tables);
      KeepsComing(w, v, d);
  }

  lemma StepSet(w: World, s: Step, d: seq<Message>)
    requires Good(w) && Enabled(w, s) && !s.Handle? && Set(w.tables, d)
    ensures Set(Next(w, s).tables, d)
  {
    TimersSound(w.tables);
    assert Same(w.tables, Next(w, s).tables);
    SameSet(w.tables, Next(w, s).tables, d);
  }

  lemma SameSet(t: Tables, r: Tables, d: seq<Message>)
    requires Set(t, d) && Same(t, r)
    ensures Set(r, d)
  {
    assert forall k :: Untouched(t, k) <==> Untouched(r, k);
  }

  lemma StepInformed(w: World, s: Step, d: seq<Message>)
    requires Good(w) && Enabled(w, s) && Set(w.tables, d) && Coming(w, d)
    ensures var more := if s.Handle? then d + [w.queue[0]] else d;
            Set(Next(w, s).tables, more) && Coming(Next(w, s), more)
  {
    if s.Handle? {
      HeadComing(w, d);
      HandleSet(w, d);
      HandleComing(w, d);
    } else {
      StepSet(w, s, d);
      StepComing(w, s, d);
    }
  }

  lemma HeadComing(w: World, d: seq<Message>)
    requires w.queue != [] && Coming(w, d)
    ensures IsAdd(w.queue[0]) ==> w.queue[0].id >= FIRST
  {
    assert Pending(w, w.queue[0]);
  }

  lemma {:induction false} RunSet(w: World, d: seq<Message>, ss: seq<Step>)
    requires Good(w) && Valid(w, ss) && Set(w.tables, d) && Coming(w, d)
    ensures Set(Run(w, ss).tables, Heard(w, d, ss)) && Coming(Run(w, ss), Heard(w, d, ss))
    decreases |ss|
  {
    if ss != [] {
      StepInformed(w, ss[0], d);
      StepGood(w, ss[0]);
      RunSet(Next(w, ss[0]), if ss[0].Handle? then d + [w.queue[0]] else d, ss[1..]);
    }
  }

  lemma StartSet()
    ensures Set(START.tables, []) && Coming(START, [])
  {
  }

  lemma ReachedSet(ss: seq<Step>)
    requires Valid(START, ss)
    ensures Set(Run(START, ss).tables, Delivered(ss)) && Coming(Run(START, ss), Delivered(ss))
  {
    StartGood();
    StartSet();
    RunSet(START, [], ss);
  }

  // ---------------------------------------------------------------- who can notify

  lemma MappedNotifies(t: Tables, id: int)
    requires Sound(t)
    ensures id in t.sockets ==> (Armed(t, id) <==> t.sockets[id].armed)
    ensures id in t.timeouts ==> (Armed(t, id) <==> t.timeouts[id].armed)
  {
    forall s, o | Proper(s) && o in Pets(s) ensures !o.armed {
    }
  }

  /** One message: events set for a socket in the map enable it, whatever they are, and an
      interval for a timeout in the map enables it exactly if it is not negative. */
  lemma SettingsTakeEffect(w: World)
    requires Good(w) && w.queue != []
    ensures var m, v := w.queue[0], Next(w, Handle);
            && (m.SetEvents? && m.id in w.tables.sockets ==> Enabled(v, Notify(m.id)))
            && (m.SetInterval? && m.id in w.tables.timeouts ==> (Enabled(v, Notify(m.id)) <==> m.interval >= 0))
  {
    StepGood(w, Handle);
    MappedNotifies(Next(w, Handle).tables, w.queue[0].id);
  }

  /** In every run: an id the generator issued, with nothing about it pending and no removal
      processed, can notify; a timeout exactly if the last interval set is not negative. */
  lemma NotifiesUntilRemoved(ss: seq<Step>, id: int)
    requires Valid(START, ss) && FIRST <= id < Run(START, ss).next
    requires forall m: Message :: m.id == id ==> !Pending(Run(START, ss), m)
    requires id !in Run(START, ss).tables.removed
    ensures var w, x := Run(START, ss), Interval(Delivered(ss), id);
            && (id in w.tables.sockets || id in w.tables.timeouts)
            && (id in w.tables.sockets ==> Enabled(w, Notify(id)))
            && (id in w.tables.timeouts ==> x.Some? && (Enabled(w, Notify(id)) <==> x.value >= 0))
  {
    var w := Run(START, ss);
    ReachedSet(ss);
    Reached(ss);
    RegisteredUntilRemoved(ss, id);
    MappedNotifies(w.tables, id);
    NothingComing(w, id);
  }

  lemma NothingComing(w: World, id: int)
    requires forall m: Message :: m.id == id ==> !Pending(w, m)
    ensures !EventsComing(w, id) && !IntervalComing(w, id)
  {
    assert forall e :: SetEvents(id, e).id == id;
    assert forall x :: SetInterval(id, x).id == id;
  }

  // ---------------------------------------------------------------- only what was passed is freed

  /** Free callbacks are set, and run, only for ids whose add call passed one. */
  ghost predicate OnlyPromised(w: World) {
    && (forall k :: k in w.tables.sockets && w.tables.sockets[k].freeable ==> k in w.promised)
    && (forall k :: k in w.tables.timeouts && w.tables.timeouts[k].freeable ==> k in w.promised)
    && (forall k :: k in w.tables.sweepers && Frees(w.tables.sweepers[k]) ==> k in w.promised)
    && (forall i :: 0 <= i < |w.tables.dying| && Frees(w.tables.dying[i]) ==> w.tables.dying[i].id in w.promised)
    && (forall k :: k in w.tables.freed ==> k in w.promised)
  }

  lemma RemovingPromised(w: World, id: int)
    requires Named(w.tables) && OnlyPromised(w)
    ensures OnlyPromised(w.(tables := Removing(w.tables, id)))
  {
  }

  lemma HandledPromised(w: World, m: Message)
    requires Named(w.tables) && OnlyPromised(w) && (m.SetOpaque? ==> (m.free <==> m.id in w.promised))
    ensures OnlyPromised(w.(tables := Handled(w.tables, m)))
  {
    if m.Remove? {
      RemovingPromised(w, m.id);
    }
  }

  lemma HandlePromised(w: World)
    requires Good(w) && w.queue != [] && OnlyPromised(w)
    ensures OnlyPromised(Next(w, Handle))
  {
    var m := w.queue[0];
    if m.SetOpaque? {
      HeadPromised(w);
    }
    HandledPromised(w, m);
  }

  lemma HeadPromised(w: World)
    requires Promising(w) && w.queue != [] && w.queue[0].SetOpaque?
    ensures w.queue[0].free <==> w.queue[0].id in w.promised
  {
    var m := w.queue[0];
    assert m == SetOpaque(m.id, m.free) && Pending(w, m);
  }

  lemma EmptiedMappedPromised(w: World, id: int)
    requires Sound(w.tables) && OnlyPromised(w) && id in w.tables.sweepers
    ensures OnlyPromised(w.(tables := EmptiedMapped(w.tables, id)))
  {
    var s := w.tables.sweepers[id];
    LetGo(s);
    assert EmptiedMapped(w.tables, id).freed == w.tables.freed + if Frees(s) then [s.id] else [];
  }

  lemma EmptiedDyingPromised(w: World, i: nat)
    requires Sound(w.tables) && OnlyPromised(w) && i < |w.tables.dying|
    ensures OnlyPromised(w.(tables := EmptiedDying(w.tables, i)))
  {
    var s := w.tables.dying[i];
    LetGo(s);
    assert EmptiedDying(w.tables, i).freed == w.tables.freed + if Frees(s) then [s.id] else [];
  }

  lemma DroppedPromised(w: World, i: nat)
    requires OnlyPromised(w) && i < |w.tables.dying|
    ensures OnlyPromised(w.(tables := w.tables.(dying := w.tables.dying[..i] + w.tables.dying[i + 1..])))
  {
    var dying := w.tables.dying;
    var d := dying[..i] + dying[i + 1..];
    assert forall j :: 0 <= j < |d| ==> d[j] == dying[if j < i then j else j + 1];
  }

  lemma DisposePromised(w: World, i: nat)
    requires Sound(w.tables) && OnlyPromised(w) && i < |w.tables.dying|
    ensures OnlyPromised(w.(tables := Disposed(w.tables, i)))
  {
    var v := w.(tables := EmptiedDying(w.tables, i));
    EmptiedDyingPromised(w, i);
    DroppedPromised(v, i);
    assert v.tables.dying[..i] + v.tables.dying[i + 1..] == w.tables.dying[..i] + w.tables.dying[i + 1..];
  }

  lemma SweepPromised(w: World, s: Step)
    requires Sound(w.tables) && Enabled(w, s) && IsSweep(s) && OnlyPromised(w)
    ensures OnlyPromised(Next(w, s))
  {
    match s
    case FireMapped(id) =>
      EmptiedMappedSound(w.tables, id);
      EmptiedMappedPromised(w, id);
      RemovingPromised(w.(tables := EmptiedMapped(w.tables, id)), id);
    case FireDying(i) =>
      EmptiedDyingSound(w.tables, i);
      EmptiedDyingPromised(w, i);
      RemovingPromised(w.(tables := EmptiedDying(w.tables, i)), w.tables.dying[i].id);
    case Dispose(i) => DisposePromised(w, i);
  }

  lemma StepPromised(w: World, s: Step)
    requires Good(w) && Enabled(w, s) && OnlyPromised(w)
    ensures OnlyPromised(Next(w, s))
  {
    if s.Handle? {
      HandlePromised(w);
    } else if IsSweep(s) {
      SweepPromised(w, s);
    }
  }

  lemma {:induction false} RunPromised(w: World, ss: seq<Step>)
    requires Good(w) && OnlyPromised(w) && Valid(w, ss)
    ensures OnlyPromised(Run(w, ss))
    decreases |ss|
  {
    if ss != [] {
      StepPromised(w, ss[0]);
      StepGood(w, ss[0]);
      RunPromised(Next(w, ss[0]), ss[1..]);
    }
  }

  /** In every run only free callbacks passed to an add call have run. */
  lemma FreedWasPassed(ss: seq<Step>, id: int)
    requires Valid(START, ss) && id in Run(START, ss).tables.freed
    ensures id in Run(START, ss).promised
  {
    StartGood();
    RunPromised(START, ss);
  }
}
