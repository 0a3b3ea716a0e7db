/** Every run of the callback hub with its clients: calls reserve an id from the generator and
    post messages, the hub's thread handles messages in order, timers fire and released
    sweepers are deleted whenever they like. */
module CallbackRuns {
  import opened Results
  import opened CallbackHub

  /** `next` is the generator; `calls` are the add calls that still have messages to post;
      `promised` are the ids whose add call passed a free callback. */
  datatype World = World(
    tables: Tables,
    queue: seq<Message>,
    next: int,
    calls: map<int, seq<Message>>,
    promised: set<int>)

  datatype Step =
    | CallSocket(free: bool, events: int)
    | CallTimeout(free: bool, interval: int)
    | Post(id: int)
    | Send(message: Message)
    | Handle
    | Notify(id: int)
    | FireMapped(id: int)
    | FireDying(i: nat)
    | Dispose(i: nat)

  predicate IsAdd(m: Message) {
    m.AddSocket? || m.AddTimeout?
  }

  function Pets(s: Sweeper): seq<Object> {
    (if s.pet1.Some? then [s.pet1.value] else []) + (if s.pet2.Some? then [s.pet2.value] else [])
  }

  /** Some object of this id may notify, wherever it is kept. */
  ghost predicate Armed(t: Tables, id: int) {
    || (exists k :: k in t.sockets && t.sockets[k].id == id && t.sockets[k].armed)
    || (exists k :: k in t.timeouts && t.timeouts[k].id == id && t.timeouts[k].armed)
    || (exists k, o :: k in t.sweepers && o in Pets(t.sweepers[k]) && o.id == id && o.armed)
    || (exists i, o :: 0 <= i < |t.dying| && o in Pets(t.dying[i]) && o.id == id && o.armed)
  }

  /** A client sends settings and removals only for ids a finished call has returned; free
      callbacks are set by add calls alone. */
  ghost predicate Enabled(w: World, s: Step) {
    match s
    case CallSocket(_, _) => true
    case CallTimeout(_, _) => true
    case Post(id) => id in w.calls && w.calls[id] != []
    case Send(m) => !IsAdd(m) && !m.SetOpaque? && m.id < w.next && m.id !in w.calls
    case Handle => w.queue != []
    case Notify(id) => Armed(w.tables, id)
    case FireMapped(id) => id in w.tables.sweepers && w.tables.sweepers[id].timer
    case FireDying(i) => i < |w.tables.dying| && w.tables.dying[i].timer
    case Dispose(i) => i < |w.tables.dying|
  }

  function Called(w: World, free: bool, messages: seq<Message>): World {
    w.(next := w.next + 1, calls := w.calls[w.next := messages],
       promised := if free then w.promised + {w.next} else w.promised)
  }

  ghost function Next(w: World, s: Step): World
    requires Enabled(w, s)
  {
    var id := w.next;
    match s
    case CallSocket(free, events) =>
      Called(w, free, [AddSocket(id), SetOpaque(id, free), SetEvents(id, events)])
    case CallTimeout(free, interval) =>
      Called(w, free, [AddTimeout(id), SetOpaque(id, free), SetInterval(id, interval)])
    case Post(id) =>
      var rest := w.calls[id][1..];
      w.(queue := w.queue + [w.calls[id][0]], calls := if rest == [] then w.calls - {id} else w.calls[id := rest])
    case Send(m) => w.(queue := w.queue + [m])
    case Handle => w.(tables := Handled(w.tables, w.queue[0]), queue := w.queue[1..])
    case Notify(_) => w
    case FireMapped(id) => w.(tables := SweptMapped(w.tables, id))
    case FireDying(i) => w.(tables := SweptDying(w.tables, i))
    case Dispose(i) => w.(tables := Disposed(w.tables, i))
  }

  /** The generator starts after the id of the mock. */
  const FIRST := 2

  const START := World(EMPTY, [], FIRST, map[], {})

  ghost predicate Valid(w: World, ss: seq<Step>)
    decreases |ss|
  {
    ss == [] || (Enabled(w, ss[0]) && Valid(Next(w, ss[0]), ss[1..]))
  }

  ghost function Run(w: World, ss: seq<Step>): World
    requires Valid(w, ss)
    decreases |ss|
  {
    if ss == [] then w else Run(Next(w, ss[0]), ss[1..])
  }

  // ---------------------------------------------------------------- the tables' invariant

  predicate Holds(s: Sweeper) {
    s.pet1.Some? || s.pet2.Some?
  }

  /** A sweeper keeps at most one pet, with its own id and disarmed. */
  predicate Proper(s: Sweeper) {
    && !(s.pet1.Some? && s.pet2.Some?)
    && (s.pet1.Some? ==> s.pet1.value.id == s.id && !s.pet1.value.armed)
    && (s.pet2.Some? ==> s.pet2.value.id == s.id && !s.pet2.value.armed)
  }

  ghost predicate Named(t: Tables) {
    && (forall k :: k in t.sockets ==> t.sockets[k].id == k)
    && (forall k :: k in t.timeouts ==> t.timeouts[k].id == k)
    && (forall k :: k in t.sweepers ==> t.sweepers[k].id == k && Proper(t.sweepers[k]))
    && (forall i :: 0 <= i < |t.dying| ==> Proper(t.dying[i]))
  }

  /** Whatever a removal has touched is in no live map, and sweepers and free callbacks
      belong to removed ids. */
  ghost predicate Apart(t: Tables) {
    && t.sockets.Keys !! t.timeouts.Keys
    && t.removed !! t.sockets.Keys + t.timeouts.Keys
    && t.sweepers.Keys <= t.removed
    && (forall i :: 0 <= i < |t.dying| ==> t.dying[i].id in t.removed)
    && (forall i :: 0 <= i < |t.freed| ==> t.freed[i] in t.removed)
  }

  /** An object is kept by one sweeper only, and not any more once it is freed. */
  ghost predicate Once(t: Tables) {
    && (forall i, j :: 0 <= i < j < |t.dying| && Holds(t.dying[i]) && Holds(t.dying[j]) ==>
          t.dying[i].id != t.dying[j].id)
    && (forall i :: 0 <= i < |t.dying| && Holds(t.dying[i]) && t.dying[i].id in t.sweepers ==>
          !Holds(t.sweepers[t.dying[i].id]))
    && (forall i :: 0 <= i < |t.dying| && Holds(t.dying[i]) ==> t.dying[i].id !in t.freed)
    && (forall k :: k in t.sweepers && Holds(t.sweepers[k]) ==> k !in t.freed)
    && (forall i, j :: 0 <= i < j < |t.freed| ==> t.freed[i] != t.freed[j])
  }

  predicate Frees(s: Sweeper) {
    Let(s.pet1) + Let(s.pet2) != []
  }

  /** A free callback that is owed has been run, or its object is still kept somewhere. */
  ghost predicate Paid(t: Tables, id: int) {
    || id in t.freed
    || (id in t.sockets && t.sockets[id].freeable)
    || (id in t.timeouts && t.timeouts[id].freeable)
    || (id in t.sweepers && Frees(t.sweepers[id]))
    || Kept(t.dying, id)
  }

  /** A released sweeper still keeps the object of this id. */
  ghost predicate Kept(dying: seq<Sweeper>, id: int) {
    exists i :: 0 <= i < |dying| && dying[i].id == id && Frees(dying[i])
  }

  ghost predicate Sound(t: Tables) {
    Named(t) && Apart(t) && Once(t) && forall id :: id in t.owed ==> Paid(t, id)
  }

  // ---------------------------------------------------------------- tables stay sound

  lemma RemovingApart(t: Tables, id: int)
    requires Sound(t)
    ensures Named(Removing(t, id)) && Apart(Removing(t, id))
  {
  }

  lemma RemovingOnce(t: Tables, id: int)
    requires Sound(t)
    ensures Once(Removing(t, id))
  {
    var r := Removing(t, id);
    if id in t.sweepers {
      assert r.dying[|t.dying|] == t.sweepers[id];
      assert forall i :: 0 <= i < |t.dying| ==> r.dying[i] == t.dying[i];
    } else if Holds(r.sweepers[id]) {
      assert id !in t.removed;
    }
  }

  lemma RemovingPaid(t: Tables, id: int, k: int)
    requires Sound(t) && Paid(t, k)
    ensures Paid(Removing(t, id), k)
  {
    var r := Removing(t, id);
    if id in t.sweepers {
      assert r.dying[|t.dying|] == t.sweepers[id];
      assert forall i :: 0 <= i < |t.dying| ==> r.dying[i] == t.dying[i];
    }
  }

  lemma RemovingSound(t: Tables, id: int)
    requires Sound(t)
    ensures Sound(Removing(t, id))
  {
    RemovingApart(t, id);
    RemovingOnce(t, id);
    forall k | k in t.owed ensures Paid(Removing(t, id), k) {
      RemovingPaid(t, id, k);
    }
  }

  /** Only an id that was never removed may be added. */
  lemma HandledSound(t: Tables, m: Message)
    requires Sound(t)
    requires IsAdd(m) ==> m.id !in t.sockets && m.id !in t.timeouts && m.id !in t.removed
    ensures Sound(Handled(t, m))
  {
    if m.Remove? {
      RemovingSound(t, m.id);
    } else {
      var r := Handled(t, m);
      forall k | k in r.owed ensures Paid(r, k) {
        assert k in t.owed || k == m.id;
      }
    }
  }

  lemma LetGo(s: Sweeper)
    requires Proper(s)
    ensures Let(s.pet1) + Let(s.pet2) == if Frees(s) then [s.id] else []
    ensures Frees(s) ==> Holds(s)
    ensures Proper(Emptied(s)) && !Holds(Emptied(s)) && !Frees(Emptied(s)) && Emptied(s).id == s.id
  {
  }

  /** What a released sweeper leaves when its pets are gone. */
  function EmptiedMapped(t: Tables, id: int): Tables
    requires id in t.sweepers
  {
    var s := t.sweepers[id];
    t.(freed := t.freed + Let(s.pet1) + Let(s.pet2), sweepers := t.sweepers[id := Emptied(s)])
  }

  function EmptiedDying(t: Tables, i: nat): Tables
    requires i < |t.dying|
  {
    var s := t.dying[i];
    t.(freed := t.freed + Let(s.pet1) + Let(s.pet2), dying := t.dying[i := Emptied(s)])
  }

  lemma EmptiedMappedSound(t: Tables, id: int)
    requires Sound(t) && id in t.sweepers
    ensures Sound(EmptiedMapped(t, id))
  {
    var s, r := t.sweepers[id], EmptiedMapped(t, id);
    LetGo(s);
    assert r.freed == t.freed + if Frees(s) then [id] else [];
    assert forall k :: k in r.freed <==> k in t.freed || (Frees(s) && k == id);
    forall k | k in t.owed ensures Paid(r, k) {
      assert Paid(t, k);
    }
  }

  lemma EmptiedDyingSound(t: Tables, i: nat)
    requires Sound(t) && i < |t.dying|
    ensures Sound(EmptiedDying(t, i))
  {
    var s, r := t.dying[i], EmptiedDying(t, i);
    LetGo(s);
    assert r.freed == t.freed + if Frees(s) then [s.id] else [];
    assert forall k :: k in r.freed <==> k in t.freed || (Frees(s) && k == s.id);
    EmptiedDyingOnce(t, i);
    forall k | k in t.owed ensures Paid(r, k) {
      assert Paid(t, k);
      if Kept(t.dying, k) && !(Frees(s) && k == s.id) {
        EmptiedKept(t.dying, i, k);
      }
    }
  }

  lemma EmptiedDyingOnce(t: Tables, i: nat)
    requires Sound(t) && i < |t.dying|
    ensures Once(EmptiedDying(t, i))
  {
    var s, freed := t.dying[i], EmptiedDying(t, i).freed;
    LetGo(s);
    assert freed == t.freed + if Frees(s) then [s.id] else [];
    assert forall k :: k in freed <==> k in t.freed || (Frees(s) && k == s.id);
    StillHolding(t.dying, i);
    if Frees(s) {
      assert Holds(t.dying[i]);
      StillOnce(t, i);
    }
  }

  /** What an emptied sweeper held nobody else holds. */
  lemma StillOnce(t: Tables, i: nat)
    requires Once(t) && i < |t.dying| && Holds(t.dying[i])
    ensures t.dying[i].id !in t.freed
    ensures t.dying[i].id in t.sweepers ==> !Holds(t.sweepers[t.dying[i].id])
    ensures forall j :: 0 <= j < |t.dying| && j != i && Holds(t.dying[j]) ==> t.dying[j].id != t.dying[i].id
  {
  }

  /** The other sweepers keep what they held. */
  lemma StillHolding(dying: seq<Sweeper>, i: nat)
    requires i < |dying|
    ensures var d := dying[i := Emptied(dying[i])];
            forall j :: 0 <= j < |d| && Holds(d[j]) ==> j != i && d[j] == dying[j]
  {
  }

  lemma EmptiedKept(dying: seq<Sweeper>, i: nat, id: int)
    requires i < |dying| && Proper(dying[i]) && Kept(dying, id) && !(Frees(dying[i]) && dying[i].id == id)
    ensures Kept(dying[i := Emptied(dying[i])], id)
  {
    var j :| 0 <= j < |dying| && dying[j].id == id && Frees(dying[j]);
    assert dying[i := Emptied(dying[i])][j] == dying[j];
  }

  lemma DroppedKept(dying: seq<Sweeper>, i: nat, id: int)
    requires i < |dying| && !Frees(dying[i]) && Kept(dying, id)
    ensures Kept(dying[..i] + dying[i + 1..], id)
  {
    var j :| 0 <= j < |dying| && dying[j].id == id && Frees(dying[j]);
    DroppedAt(dying, i, j);
    assert (dying[..i] + dying[i + 1..])[if j < i then j else j - 1] == dying[j];
  }

  /** Where an element is once the i-th is dropped. */
  lemma DroppedAt(dying: seq<Sweeper>, i: nat, j: nat)
    requires i < |dying| && j < |dying| && j != i
    ensures (dying[..i] + dying[i + 1..])[if j < i then j else j - 1] == dying[j]
  {
  }

  lemma DroppedOnce(t: Tables, i: nat)
    requires Sound(t) && i < |t.dying|
    ensures Once(t.(dying := t.dying[..i] + t.dying[i + 1..]))
  {
    var d := t.dying[..i] + t.dying[i + 1..];
    forall j | 0 <= j < |d| ensures d[j] == t.dying[if j < i then j else j + 1] {
    }
    forall j, k | 0 <= j < k < |d| && Holds(d[j]) && Holds(d[k]) ensures d[j].id != d[k].id {
      var j', k' := if j < i then j else j + 1, if k < i then k else k + 1;
      assert 0 <= j' < k' < |t.dying| && d[j] == t.dying[j'] && d[k] == t.dying[k'];
    }
  }

  lemma DroppedSound(t: Tables, i: nat)
    requires Sound(t) && i < |t.dying| && !Holds(t.dying[i])
    ensures Sound(t.(dying := t.dying[..i] + t.dying[i + 1..]))
  {
    var r := t.(dying := t.dying[..i] + t.dying[i + 1..]);
    DroppedOnce(t, i);
    forall j | 0 <= j < |r.dying| ensures r.dying[j] == t.dying[if j < i then j else j + 1] {
    }
    forall k | k in t.owed ensures Paid(r, k) {
      if Kept(t.dying, k) {
        DroppedKept(t.dying, i, k);
      }
    }
  }

  lemma TimersSound(t: Tables)
    requires Sound(t)
    ensures forall id :: id in t.sweepers ==> Sound(SweptMapped(t, id)) && Same(t, SweptMapped(t, id))
    ensures forall i :: 0 <= i < |t.dying| ==> Sound(SweptDying(t, i)) && Same(t, SweptDying(t, i))
    ensures forall i :: 0 <= i < |t.dying| ==> Sound(Disposed(t, i)) && Same(t, Disposed(t, i))
  {
    forall id | id in t.sweepers ensures Sound(SweptMapped(t, id)) && Same(t, SweptMapped(t, id)) {
      EmptiedMappedSound(t, id);
      RemovingSound(EmptiedMapped(t, id), id);
      RemovedAgain(EmptiedMapped(t, id), id);
    }
    forall i | 0 <= i < |t.dying| ensures Sound(SweptDying(t, i)) && Same(t, SweptDying(t, i)) {
      EmptiedDyingSound(t, i);
      RemovingSound(EmptiedDying(t, i), t.dying[i].id);
      RemovedAgain(EmptiedDying(t, i), t.dying[i].id);
    }
    forall i | 0 <= i < |t.dying| ensures Sound(Disposed(t, i)) && Same(t, Disposed(t, i)) {
      EmptiedDyingSound(t, i);
      DroppedSound(EmptiedDying(t, i), i);
      var e := EmptiedDying(t, i).dying;
      assert e[..i] + e[i + 1..] == t.dying[..i] + t.dying[i + 1..];
    }
  }

  /** What timers do not touch. */
  ghost predicate Same(t: Tables, r: Tables) {
    r.sockets == t.sockets && r.timeouts == t.timeouts && r.removed == t.removed && r.owed == t.owed
  }

  lemma RemovedAgain(t: Tables, id: int)
    requires Sound(t) && id in t.removed
    ensures Same(t, Removing(t, id))
  {
    assert t.removed + {id} == t.removed;
    assert t.sockets - {id} == t.sockets && t.timeouts - {id} == t.timeouts;
  }

  // ---------------------------------------------------------------- runs

  /** The id's add message has not been handled and comes before anything else about it. */
  ghost predicate Untouched(t: Tables, id: int) {
    id !in t.sockets && id !in t.timeouts && id !in t.removed
  }

  predicate Starting(calls: map<int, seq<Message>>, id: int) {
    id in calls && calls[id] != [] && IsAdd(calls[id][0])
  }

  ghost predicate Ordered(w: World) {
    && (forall k :: k in w.calls ==>
          && k < w.next
          && w.calls[k] != []
          && (forall i :: 0 <= i < |w.calls[k]| ==> w.calls[k][i].id == k && (i > 0 ==> !IsAdd(w.calls[k][i]))))
    && (forall i :: 0 <= i < |w.queue| ==> w.queue[i].id < w.next)
    && (forall k :: !Untouched(w.tables, k) ==> k < w.next)
    && (forall k :: Starting(w.calls, k) ==>
          Untouched(w.tables, k) && forall i :: 0 <= i < |w.queue| ==> w.queue[i].id != k)
    && (forall j :: 0 <= j < |w.queue| && IsAdd(w.queue[j]) ==> Untouched(w.tables, w.queue[j].id))
    && (forall i, j :: 0 <= i < j < |w.queue| && IsAdd(w.queue[j]) ==> w.queue[i].id != w.queue[j].id)
  }

  lemma HandledTouches(t: Tables, m: Message)
    ensures forall k :: k != m.id && Untouched(t, k) ==> Untouched(Handled(t, m), k)
    ensures forall k :: k != m.id && !Untouched(t, k) ==> !Untouched(Handled(t, m), k)
    ensures forall k :: k != m.id && Untouched(Handled(t, m), k) ==> Untouched(t, k)
  {
  }

  lemma CallOrdered(w: World, free: bool, first: Message, second: Message, third: Message)
    requires Ordered(w) && IsAdd(first) && !IsAdd(second) && !IsAdd(third)
    requires first.id == second.id == third.id == w.next
    ensures Ordered(Called(w, free, [first, second, third]))
  {
  }

  lemma SendOrdered(w: World, m: Message)
    requires Ordered(w) && m.id < w.next && !Starting(w.calls, m.id)
    requires IsAdd(m) ==> Untouched(w.tables, m.id) && forall i :: 0 <= i < |w.queue| ==> w.queue[i].id != m.id
    ensures Ordered(w.(queue := w.queue + [m]))
  {
    var q := w.queue + [m];
    assert forall i :: 0 <= i < |q| ==> q[i] == if i < |w.queue| then w.queue[i] else m;
  }

  lemma PostOrdered(w: World, id: int)
    requires Ordered(w) && Enabled(w, Post(id))
    ensures Ordered(Next(w, Post(id)))
  {
    var rest := w.calls[id][1..];
    assert forall i :: 0 <= i < |rest| ==> rest[i] == w.calls[id][i + 1];
    var v := w.(calls := if rest == [] then w.calls - {id} else w.calls[id := rest]);
    assert !Starting(v.calls, id);
    assert forall k :: Starting(v.calls, k) ==> Starting(w.calls, k);
    assert IsAdd(w.calls[id][0]) ==> Starting(w.calls, id);
    assert Ordered(v);
    SendOrdered(v, w.calls[id][0]);
  }

  lemma HandleOrdered(w: World)
    requires Ordered(w) && w.queue != []
    ensures Ordered(Next(w, Handle))
  {
    var v := Next(w, Handle);
    HandledTouches(w.tables, w.queue[0]);
    assert forall i :: 0 <= i < |v.queue| ==> v.queue[i] == w.queue[i + 1];
  }

  lemma SameOrdered(w: World, t: Tables)
    requires Ordered(w) && Same(w.tables, t)
    ensures Ordered(w.(tables := t))
  {
    assert forall k :: Untouched(t, k) <==> Untouched(w.tables, k);
  }

  lemma StepOrdered(w: World, s: Step)
    requires Ordered(w) && Sound(w.tables) && Enabled(w, s)
    ensures Ordered(Next(w, s))
  {
    var id := w.next;
    match s
    case CallSocket(free, events) =>
      CallOrdered(w, free, AddSocket(id), SetOpaque(id, free), SetEvents(id, events));
    case CallTimeout(free, interval) =>
      CallOrdered(w, free, AddTimeout(id), SetOpaque(id, free), SetInterval(id, interval));
    case Post(id) => PostOrdered(w, id);
    case Send(m) => SendOrdered(w, m);
    case Handle => HandleOrdered(w);
    case Notify(_) =>
    case _ =>
      TimersSound(w.tables);
      SameOrdered(w, Next(w, s).tables);
  }

  lemma StepSound(w: World, s: Step)
    requires Ordered(w) && Sound(w.tables) && Enabled(w, s)
    ensures Sound(Next(w, s).tables)
  {
    if s.Handle? {
      HandledSound(w.tables, w.queue[0]);
    }
    TimersSound(w.tables);
  }

  // ---------------------------------------------------------------- nothing is lost

  predicate Pending(w: World, m: Message) {
    m in w.queue || (m.id in w.calls && m in w.calls[m.id])
  }

  /** An id from the generator is on its way, kept in a map, or removed. */
  ghost predicate Issued(w: World) {
    forall id :: FIRST <= id < w.next ==>
                   Pending(w, AddSocket(id)) || Pending(w, AddTimeout(id)) || !Untouched(w.tables, id)
  }

  /** While a free callback is on its way nothing removes its id, and afterwards it is owed. */
  ghost predicate Promising(w: World) {
    && (forall id :: id in w.calls ==>
          id >= FIRST && id !in w.tables.removed && Remove(id) !in w.queue && Remove(id) !in w.calls[id])
    && (forall j :: 0 <= j < |w.queue| && w.queue[j].SetOpaque? ==>
          w.queue[j].id >= FIRST && w.queue[j].id !in w.tables.removed)
    && (forall i, j :: 0 <= i < j < |w.queue| && w.queue[j].SetOpaque? ==> w.queue[i] != Remove(w.queue[j].id))
    && (forall id, f :: Pending(w, SetOpaque(id, f)) ==> (f <==> id in w.promised))
    && (forall id :: id in w.promised ==> id < w.next && (Pending(w, SetOpaque(id, true)) || id in w.tables.owed))
  }

  lemma CallIssued(w: World, free: bool, first: Message, third: Message)
    requires Ordered(w) && Issued(w)
    requires first == AddSocket(w.next) || first == AddTimeout(w.next)
    requires third.id == w.next
    ensures Issued(Called(w, free, [first, SetOpaque(w.next, free), third]))
  {
    CallPending(w, free, first, third);
    assert Pending(Called(w, free, [first, SetOpaque(w.next, free), third]), first);
  }

  lemma CallPromising(w: World, free: bool, first: Message, third: Message)
    requires Ordered(w) && Promising(w) && w.next >= FIRST
    requires IsAdd(first) && first.id == w.next
    requires (third.SetEvents? || third.SetInterval?) && third.id == w.next
    ensures Promising(Called(w, free, [first, SetOpaque(w.next, free), third]))
  {
    var v := Called(w, free, [first, SetOpaque(w.next, free), third]);
    CallPending(w, free, first, third);
    assert Untouched(w.tables, w.next);
    assert Pending(v, SetOpaque(w.next, free));
    assert forall m :: m in w.queue ==> m.id < w.next;
    assert forall f :: !Pending(w, SetOpaque(w.next, f));
    assert Remove(w.next) !in v.calls[w.next];
  }

  lemma CallPending(w: World, free: bool, first: Message, third: Message)
    requires Ordered(w) && first.id == third.id == w.next
    ensures var v := Called(w, free, [first, SetOpaque(w.next, free), third]);
            forall m :: Pending(v, m) <==> Pending(w, m) || m == first || m == SetOpaque(w.next, free) || m == third
  {
    var messages := [first, SetOpaque(w.next, free), third];
    assert messages[0] == first && messages[1] == SetOpaque(w.next, free) && messages[2] == third;
    assert forall m :: m in messages <==> m == first || m == SetOpaque(w.next, free) || m == third;
    assert w.next !in w.calls;
  }

  lemma PostPending(w: World, id: int, m: Message)
    requires Ordered(w) && Enabled(w, Post(id))
    ensures Pending(Next(w, Post(id)), m) <==> Pending(w, m)
  {
    var c := w.calls[id];
    assert c == [c[0]] + c[1..];
    assert c[0].id == id;
  }

  lemma PostKeeps(w: World, id: int)
    requires Ordered(w) && Issued(w) && Promising(w) && Enabled(w, Post(id))
    ensures Issued(Next(w, Post(id))) && Promising(Next(w, Post(id)))
  {
    var v, c := Next(w, Post(id)), w.calls[id];
    forall m ensures Pending(v, m) <==> Pending(w, m) {
      PostPending(w, id, m);
    }
    assert c == [c[0]] + c[1..] && c[0] != Remove(id) && c[0].id == id;
    assert forall j :: 0 <= j < |v.queue| ==> v.queue[j] == if j < |w.queue| then w.queue[j] else c[0];
    assert forall m :: m in v.queue <==> m in w.queue || m == c[0];
  }

  lemma SendKeeps(w: World, m: Message)
    requires Ordered(w) && Issued(w) && Promising(w) && Enabled(w, Send(m))
    ensures Issued(Next(w, Send(m))) && Promising(Next(w, Send(m)))
  {
    var v := Next(w, Send(m));
    assert forall j :: 0 <= j < |v.queue| ==> v.queue[j] == if j < |w.queue| then w.queue[j] else m;
    assert forall x :: x in v.queue <==> x in w.queue || x == m;
    assert forall x :: Pending(v, x) <==> Pending(w, x) || x == m;
  }

  lemma HandlePending(w: World, m: Message)
    requires w.queue != []
    ensures Pending(Next(w, Handle), m) ==> Pending(w, m)
    ensures Pending(w, m) ==> m == w.queue[0] || Pending(Next(w, Handle), m)
  {
    assert w.queue == [w.queue[0]] + w.queue[1..];
  }

  lemma HandleIssued(w: World)
    requires Issued(w) && w.queue != []
    ensures Issued(Next(w, Handle))
  {
    var v, m := Next(w, Handle), w.queue[0];
    HandledTouches(w.tables, m);
    forall id | FIRST <= id < v.next
      ensures Pending(v, AddSocket(id)) || Pending(v, AddTimeout(id)) || !Untouched(v.tables, id)
    {
      HandlePending(w, AddSocket(id));
      HandlePending(w, AddTimeout(id));
      if id == m.id && !Untouched(w.tables, id) {
        StaysTouched(w.tables, m);
      }
    }
  }

  lemma StaysTouched(t: Tables, m: Message)
    requires !Untouched(t, m.id) || IsAdd(m)
    ensures !Untouched(Handled(t, m), m.id)
  {
  }

  /** The head of the queue finds its object if it sets a free callback. */
  lemma OpaqueFindsObject(w: World)
    requires Ordered(w) && Issued(w) && Promising(w) && w.queue != [] && w.queue[0].SetOpaque?
    ensures w.queue[0].id in w.tables.sockets || w.queue[0].id in w.tables.timeouts
  {
    var m := w.queue[0];
    assert forall j :: 0 <= j < |w.queue| && IsAdd(w.queue[j]) ==> w.queue[j].id != m.id;
    assert !Starting(w.calls, m.id);
    assert m.id in w.calls ==> forall i :: 0 <= i < |w.calls[m.id]| ==> !IsAdd(w.calls[m.id][i]);
    assert !Pending(w, AddSocket(m.id)) && !Pending(w, AddTimeout(m.id));
  }

  lemma HandlePromising(w: World)
    requires Ordered(w) && Issued(w) && Promising(w) && w.queue != []
    ensures Promising(Next(w, Handle))
  {
    var v, m := Next(w, Handle), w.queue[0];
    assert forall j :: 0 <= j < |v.queue| ==> v.queue[j] == w.queue[j + 1];
    assert v.tables.removed == w.tables.removed + if m.Remove? then {m.id} else {};
    assert forall x :: x in v.queue ==> x in w.queue;
    forall id, f | Pending(v, SetOpaque(id, f)) ensures f <==> id in w.promised {
      HandlePending(w, SetOpaque(id, f));
    }
    forall id | id in w.promised ensures Pending(v, SetOpaque(id, true)) || id in v.tables.owed {
      HandlePending(w, SetOpaque(id, true));
      if m.SetOpaque? {
        OpaqueFindsObject(w);
        assert Pending(w, m) && m == SetOpaque(m.id, m.free);
      }
    }
    if m.Remove? {
      assert m == Remove(m.id);
      assert m.id !in w.calls;
    }
  }

  lemma StepKeeps(w: World, s: Step)
    requires Ordered(w) && Sound(w.tables) && Issued(w) && Promising(w) && w.next >= FIRST && Enabled(w, s)
    ensures Issued(Next(w, s)) && Promising(Next(w, s))
  {
    var id := w.next;
    match s
    case CallSocket(free, events) =>
      CallIssued(w, free, AddSocket(id), SetEvents(id, events));
      CallPromising(w, free, AddSocket(id), SetEvents(id, events));
    case CallTimeout(free, interval) =>
      CallIssued(w, free, AddTimeout(id), SetInterval(id, interval));
      CallPromising(w, free, AddTimeout(id), SetInterval(id, interval));
    case Post(id) => PostKeeps(w, id);
    case Send(m) => SendKeeps(w, m);
    case Handle =>
      HandleIssued(w);
      HandlePromising(w);
    case Notify(_) =>
    case _ =>
      TimersSound(w.tables);
      SameKeeps(w, Next(w, s).tables);
  }

  lemma SameKeeps(w: World, t: Tables)
    requires Issued(w) && Promising(w) && Same(w.tables, t)
    ensures Issued(w.(tables := t)) && Promising(w.(tables := t))
  {
    var v := w.(tables := t);
    assert forall m :: Pending(v, m) <==> Pending(w, m);
    assert forall k :: Untouched(t, k) <==> Untouched(w.tables, k);
  }

  ghost predicate Good(w: World) {
    w.next >= FIRST && Ordered(w) && Sound(w.tables) && Issued(w) && Promising(w)
  }

  lemma StepGood(w: World, s: Step)
    requires Good(w) && Enabled(w, s)
    ensures Good(Next(w, s))
  {
    StepOrdered(w, s);
    StepSound(w, s);
    StepKeeps(w, s);
  }

  lemma {:induction false} RunGood(w: World, ss: seq<Step>)
    requires Good(w) && Valid(w, ss)
    ensures Good(Run(w, ss))
    decreases |ss|
  {
    if ss != [] {
      StepGood(w, ss[0]);
      RunGood(Next(w, ss[0]), ss[1..]);
    }
  }

  lemma StartGood()
    ensures Good(START) && Ticking(START.tables) && Load(START.tables) == 0
  {
  }

  lemma Reached(ss: seq<Step>)
    requires Valid(START, ss)
    ensures Good(Run(START, ss))
  {
    StartGood();
    RunGood(START, ss);
  }

  function Count(freed: seq<int>, id: int): nat {
    multiset(freed)[id]
  }

  lemma {:induction false} DistinctCount(s: seq<int>, id: int)
    requires forall i, j :: 0 <= i < j < |s| ==> s[i] != s[j]
    ensures multiset(s)[id] == if id in s then 1 else 0
  {
    if s != [] {
      assert s == [s[0]] + s[1..];
      DistinctCount(s[1..], id);
      assert s[0] !in s[1..];
    }
  }

  /** In every run an id is in at most one of the three maps, its free callback has run at
      most once, and only when it is in neither the socket nor the timeout map. */
  lemma RemovedOnce(ss: seq<Step>, id: int)
    requires Valid(START, ss)
    ensures var t := Run(START, ss).tables;
            && !(id in t.sockets && id in t.timeouts)
            && !(id in t.sweepers && (id in t.sockets || id in t.timeouts))
            && Count(t.freed, id) <= 1
            && (Count(t.freed, id) == 1 ==> id !in t.sockets && id !in t.timeouts)
  {
    Reached(ss);
    DistinctCount(Run(START, ss).tables.freed, id);
  }

  /** No notification for an id is delivered once a removal of it has been processed. */
  lemma NoLateNotification(ss: seq<Step>, id: int)
    requires Valid(START, ss) && Enabled(Run(START, ss), Notify(id))
    ensures id !in Run(START, ss).tables.removed
  {
    Reached(ss);
    ArmedNotRemoved(Run(START, ss).tables, id);
  }

  lemma ArmedNotRemoved(t: Tables, id: int)
    requires Sound(t) && Armed(t, id)
    ensures id !in t.removed
  {
    forall s, o | Proper(s) && o in Pets(s) ensures !o.armed {
    }
  }

  /** No registration is lost: an id the generator issued is kept in the socket or the timeout
      map until it is removed, as soon as nothing about it is pending. */
  lemma RegisteredUntilRemoved(ss: seq<Step>, id: int)
    requires Valid(START, ss) && FIRST <= id < Run(START, ss).next
    requires forall m: Message :: m.id == id ==> !Pending(Run(START, ss), m)
    ensures var t := Run(START, ss).tables;
            id in t.sockets || id in t.timeouts || id in t.removed
  {
    Reached(ss);
    NothingPending(Run(START, ss), id);
  }

  lemma NothingPending(w: World, id: int)
    requires Issued(w) && FIRST <= id < w.next && (forall m: Message :: m.id == id ==> !Pending(w, m))
    ensures !Untouched(w.tables, id)
  {
    assert AddSocket(id).id == id && AddTimeout(id).id == id;
  }

  lemma PendingNotRemoved(w: World)
    requires Promising(w)
    ensures forall id, f :: Pending(w, SetOpaque(id, f)) ==> id !in w.tables.removed
  {
    forall id, f | Pending(w, SetOpaque(id, f)) ensures id !in w.tables.removed {
      if SetOpaque(id, f) in w.queue {
        var j :| 0 <= j < |w.queue| && w.queue[j] == SetOpaque(id, f);
      }
    }
  }

  /** No free callback is lost either: when an id whose add call passed one has been removed
      and every sweeper is gone, the callback has run exactly once. */
  lemma FreedInTheEnd(ss: seq<Step>, id: int)
    requires Valid(START, ss) && id in Run(START, ss).promised && id in Run(START, ss).tables.removed
    requires Run(START, ss).tables.sweepers == map[] && Run(START, ss).tables.dying == []
    ensures Count(Run(START, ss).tables.freed, id) == 1
  {
    Reached(ss);
    PromisedOwed(Run(START, ss), id);
    DistinctCount(Run(START, ss).tables.freed, id);
  }

  // ---------------------------------------------------------------- sweepers drain

  /** Timer events and deferred deletions. */
  predicate IsSweep(s: Step) {
    s.FireMapped? || s.FireDying? || s.Dispose?
  }

  /** How many of them a released sweeper can still cause: its timer may find another sweeper
      of the same id, which it releases with its timer running, or create one. */
  function Weight(s: Sweeper): nat {
    if s.timer then 4 else 1
  }

  function Weights(dying: seq<Sweeper>): nat
    decreases |dying|
  {
    if dying == [] then 0 else Weights(dying[..|dying| - 1]) + Weight(dying[|dying| - 1])
  }

  function Load(t: Tables): nat {
    2 * |t.sweepers.Keys| + Weights(t.dying)
  }

  /** A sweeper in the map has its timer running. */
  ghost predicate Ticking(t: Tables) {
    forall id :: id in t.sweepers ==> t.sweepers[id].timer
  }

  lemma {:induction false} WeightsAppend(a: seq<Sweeper>, b: seq<Sweeper>)
    ensures Weights(a + b) == Weights(a) + Weights(b)
    decreases |b|
  {
    if b == [] {
      assert a + b == a;
    } else {
      WeightsAppend(a, b[..|b| - 1]);
      assert (a + b)[..|a + b| - 1] == a + b[..|b| - 1];
    }
  }

  lemma WeightsOne(s: Sweeper)
    ensures Weights([s]) == Weight(s)
  {
    assert [s][..0] == [];
  }

  lemma WeightsAt(dying: seq<Sweeper>, i: nat, s: Sweeper)
    requires i < |dying|
    ensures Weights(dying[i := s]) == Weights(dying) - Weight(dying[i]) + Weight(s)
    ensures Weights(dying[..i] + dying[i + 1..]) == Weights(dying) - Weight(dying[i])
  {
    var a, b := dying[..i], dying[i + 1..];
    assert dying == a + [dying[i]] + b && dying[i := s] == a + [s] + b;
    WeightsAppend(a, b);
    WeightsAppend(a + [s], b);
    WeightsAppend(a, [s]);
    WeightsAppend(a + [dying[i]], b);
    WeightsAppend(a, [dying[i]]);
    WeightsOne(s);
    WeightsOne(dying[i]);
  }

  lemma ReleasingLoad(t: Tables, id: int)
    requires id in t.sweepers
    ensures Load(Removing(t, id)) == Load(t) + Weight(t.sweepers[id]) - 2
  {
    var s := t.sweepers[id];
    assert Removing(t, id).sweepers.Keys == t.sweepers.Keys - {id};
    WeightsAppend(t.dying, [s]);
    WeightsOne(s);
    assert Removing(t, id).dying == t.dying + [s];
  }

  lemma CreatingLoad(t: Tables, id: int)
    requires id !in t.sweepers
    ensures Load(Removing(t, id)) == Load(t) + 2
  {
    assert Removing(t, id).sweepers.Keys == t.sweepers.Keys + {id};
  }

  lemma RemovingTicks(t: Tables, id: int)
    requires forall k :: k in t.sweepers && k != id ==> t.sweepers[k].timer
    ensures Ticking(Removing(t, id))
  {
  }

  lemma HandledLoad(t: Tables, m: Message)
    requires Ticking(t)
    ensures Ticking(Handled(t, m)) && Load(Handled(t, m)) == Load(t) + if m.Remove? then 2 else 0
  {
    if m.Remove? {
      RemovingTicks(t, m.id);
      if m.id in t.sweepers {
        ReleasingLoad(t, m.id);
      } else {
        CreatingLoad(t, m.id);
      }
    }
  }

  lemma SweptMappedLoad(t: Tables, id: int)
    requires Ticking(t) && id in t.sweepers && t.sweepers[id].id == id
    ensures Ticking(SweptMapped(t, id)) && Load(SweptMapped(t, id)) < Load(t)
  {
    RemovingTicks(EmptiedMapped(t, id), id);
    ReleasingLoad(EmptiedMapped(t, id), id);
    assert EmptiedMapped(t, id).sweepers.Keys == t.sweepers.Keys;
  }

  lemma SweptDyingLoad(t: Tables, i: nat)
    requires Ticking(t) && i < |t.dying| && t.dying[i].timer
    ensures Ticking(SweptDying(t, i)) && Load(SweptDying(t, i)) < Load(t)
  {
    var e, id := EmptiedDying(t, i), t.dying[i].id;
    WeightsAt(t.dying, i, Emptied(t.dying[i]));
    RemovingTicks(e, id);
    if id in t.sweepers {
      ReleasingLoad(e, id);
    } else {
      CreatingLoad(e, id);
    }
  }

  function One(b: bool): nat {
    if b then 1 else 0
  }

  lemma StepLoad(w: World, s: Step)
    requires Sound(w.tables) && Ticking(w.tables) && Enabled(w, s)
    ensures Ticking(Next(w, s).tables)
    ensures Load(Next(w, s).tables) + One(IsSweep(s)) <= Load(w.tables) + 2 * One(s.Handle?)
  {
    match s
    case Handle => HandledLoad(w.tables, w.queue[0]);
    case FireMapped(id) => SweptMappedLoad(w.tables, id);
    case FireDying(i) => SweptDyingLoad(w.tables, i);
    case Dispose(i) => WeightsAt(w.tables.dying, i, w.tables.dying[i]);
    case _ =>
  }

  function Sweeps(ss: seq<Step>): nat {
    if ss == [] then 0 else One(IsSweep(ss[0])) + Sweeps(ss[1..])
  }

  function Handles(ss: seq<Step>): nat {
    if ss == [] then 0 else One(ss[0].Handle?) + Handles(ss[1..])
  }

  lemma {:induction false} RunLoad(w: World, ss: seq<Step>)
    requires Good(w) && Ticking(w.tables) && Valid(w, ss)
    ensures Ticking(Run(w, ss).tables)
    ensures Load(Run(w, ss).tables) + Sweeps(ss) <= Load(w.tables) + 2 * Handles(ss)
    decreases |ss|
  {
    if ss != [] {
      StepGood(w, ss[0]);
      StepLoad(w, ss[0]);
      RunLoad(Next(w, ss[0]), ss[1..]);
    }
  }

  /** Sweepers drain, although a timer may create another one: there are at most two timer
      events and deletions for each message handled, and none is left exactly when no sweeper
      is. */
  lemma SweepersDrain(ss: seq<Step>)
    requires Valid(START, ss)
    ensures Sweeps(ss) + Load(Run(START, ss).tables) <= 2 * Handles(ss)
    ensures Swept(Run(START, ss)) <==> Run(START, ss).tables.sweepers == map[] && Run(START, ss).tables.dying == []
    ensures Swept(Run(START, ss)) <==> Load(Run(START, ss).tables) == 0
  {
    StartGood();
    RunLoad(START, ss);
    SweptEmpty(Run(START, ss));
  }

  /** No timer event or deletion is left. */
  ghost predicate Swept(w: World) {
    forall s :: IsSweep(s) ==> !Enabled(w, s)
  }

  lemma SweptEmpty(w: World)
    requires Ticking(w.tables)
    ensures Swept(w) <==> w.tables.sweepers == map[] && w.tables.dying == []
    ensures Swept(w) <==> Load(w.tables) == 0
  {
    var t := w.tables;
    if Swept(w) {
      assert IsSweep(Dispose(0)) && t.dying == [];
      forall id ensures id !in t.sweepers {
        assert IsSweep(FireMapped(id));
      }
    }
    assert Load(t) == 0 ==> t.sweepers.Keys == {};
  }

  lemma ReachedTicking(ss: seq<Step>)
    requires Valid(START, ss)
    ensures Good(Run(START, ss)) && Ticking(Run(START, ss).tables)
  {
    StartGood();
    RunGood(START, ss);
    RunLoad(START, ss);
  }

  lemma {:induction false} SweepsOnly(w: World, tt: seq<Step>)
    requires Good(w) && Valid(w, tt) && forall s :: s in tt ==> IsSweep(s)
    ensures Run(w, tt).promised == w.promised && Run(w, tt).tables.removed == w.tables.removed
    ensures Sweeps(tt) == |tt| && Handles(tt) == 0
    decreases |tt|
  {
    if tt != [] {
      assert IsSweep(tt[0]);
      TimersSound(w.tables);
      StepGood(w, tt[0]);
      SweepsOnly(Next(w, tt[0]), tt[1..]);
    }
  }

  /** So once a promised id is removed its free callback runs exactly once if timers and
      deletions are let run until none is left, in whatever order, and that takes a bounded
      number of them. */
  lemma SweptInTheEnd(ss: seq<Step>, tt: seq<Step>, id: int)
    requires Valid(START, ss) && id in Run(START, ss).promised && id in Run(START, ss).tables.removed
    requires Valid(Run(START, ss), tt) && forall s :: s in tt ==> IsSweep(s)
    ensures |tt| <= Load(Run(START, ss).tables)
    ensures Swept(Run(Run(START, ss), tt)) ==> Count(Run(Run(START, ss), tt).tables.freed, id) == 1
  {
    ReachedTicking(ss);
    SweepsOnly(Run(START, ss), tt);
    SweptFrees(Run(START, ss), tt, id);
  }

  lemma SweptFrees(v: World, tt: seq<Step>, id: int)
    requires Good(v) && Ticking(v.tables) && Valid(v, tt) && Sweeps(tt) == |tt| && Handles(tt) == 0
    requires id in Run(v, tt).promised && id in Run(v, tt).tables.removed
    ensures |tt| <= Load(v.tables)
    ensures Swept(Run(v, tt)) ==> Count(Run(v, tt).tables.freed, id) == 1
  {
    var w := Run(v, tt);
    RunLoad(v, tt);
    RunGood(v, tt);
    SweptEmpty(w);
    PromisedOwed(w, id);
    DistinctCount(w.tables.freed, id);
  }

  lemma PromisedOwed(w: World, id: int)
    requires Promising(w) && id in w.promised && id in w.tables.removed
    ensures id in w.tables.owed
  {
    PendingNotRemoved(w);
  }
}
