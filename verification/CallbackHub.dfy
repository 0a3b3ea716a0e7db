/** The event hub libvirt's callbacks are registered with: sockets and timeouts are removed in
    two phases, by a sweeper whose timer fires later. */
module CallbackHub {
  import opened Results

  /** A socket or timeout: `armed` when it may notify, `freeable` when a free callback is set. */
  datatype Object = Object(id: int, armed: bool, freeable: bool)

  datatype Sweeper = Sweeper(id: int, pet1: Option<Object>, pet2: Option<Object>, timer: bool)

  /** The hub's maps and the sweepers released for deletion. `freed` lists the free callbacks
      run, `removed` the ids whose removal was processed, `owed` the ids of objects that were
      last given a free callback. */
  datatype Tables = Tables(
    sockets: map<int, Object>,
    timeouts: map<int, Object>,
    sweepers: map<int, Sweeper>,
    dying: seq<Sweeper>,
    freed: seq<int>,
    removed: set<int>,
    owed: set<int>)

  datatype Message =
    | AddSocket(id: int)
    | AddTimeout(id: int)
    | SetOpaque(id: int, free: bool)
    | SetEvents(id: int, events: int)
    | SetInterval(id: int, interval: int)
    | Remove(id: int)

  const EMPTY := Tables(map[], map[], map[], [], [], {}, {})

  // ---------------------------------------------------------------- specification

  function Taken(m: map<int, Object>, id: int): Option<Object> {
    if id in m then Some(m[id].(armed := false)) else None
  }

  function Removing(t: Tables, id: int): Tables {
    var t := t.(removed := t.removed + {id});
    if id in t.sweepers then
      t.(sweepers := t.sweepers - {id}, dying := t.dying + [t.sweepers[id]])
    else
      t.(sockets := t.sockets - {id}, timeouts := t.timeouts - {id},
         sweepers := t.sweepers[id := Sweeper(id, Taken(t.sockets, id), Taken(t.timeouts, id), true)])
  }

  function Handled(t: Tables, m: Message): Tables {
    match m
    case AddSocket(id) =>
      if id in t.sockets then t else t.(sockets := t.sockets[id := Object(id, false, false)])
    case AddTimeout(id) =>
      if id in t.timeouts then t else t.(timeouts := t.timeouts[id := Object(id, false, false)])
    case SetOpaque(id, free) =>
      if id in t.sockets then
        Owing(t.(sockets := t.sockets[id := t.sockets[id].(freeable := free)]), id, free)
      else if id in t.timeouts then
        Owing(t.(timeouts := t.timeouts[id := t.timeouts[id].(freeable := free)]), id, free)
      else
        t
    case SetEvents(id, _) =>
      // NB. the error notifier is enabled whatever the events are.
      if id in t.sockets then t.(sockets := t.sockets[id := t.sockets[id].(armed := true)]) else t
    case SetInterval(id, interval) =>
      if id in t.timeouts then t.(timeouts := t.timeouts[id := t.timeouts[id].(armed := interval >= 0)]) else t
    case Remove(id) => Removing(t, id)
  }

  function Owing(t: Tables, id: int, free: bool): Tables {
    t.(owed := if free then t.owed + {id} else t.owed - {id})
  }

  /** The free callbacks run when a sweeper lets its pets go. */
  function Let(o: Option<Object>): seq<int> {
    if o.Some? && o.value.freeable then [o.value.id] else []
  }

  function Emptied(s: Sweeper): Sweeper {
    s.(pet1 := None, pet2 := None, timer := false)
  }

  /** Sweeper::timerEvent of a sweeper in the hub's map. */
  function SweptMapped(t: Tables, id: int): Tables
    requires id in t.sweepers
  {
    var s := t.sweepers[id];
    Removing(t.(freed := t.freed + Let(s.pet1) + Let(s.pet2), sweepers := t.sweepers[id := Emptied(s)]), s.id)
  }

  /** Sweeper::timerEvent of a released sweeper. */
  function SweptDying(t: Tables, i: nat): Tables
    requires i < |t.dying|
  {
    var s := t.dying[i];
    Removing(t.(freed := t.freed + Let(s.pet1) + Let(s.pet2), dying := t.dying[i := Emptied(s)]), s.id)
  }

  /** The deferred deletion of a released sweeper. */
  function Disposed(t: Tables, i: nat): Tables
    requires i < |t.dying|
  {
    var s := t.dying[i];
    t.(freed := t.freed + Let(s.pet1) + Let(s.pet2), dying := t.dying[..i] + t.dying[i + 1..])
  }

  // ---------------------------------------------------------------- implementation

  class Hub {
    var sockets: map<int, Object>
    var timeouts: map<int, Object>
    var sweepers: map<int, Sweeper>
    var dying: seq<Sweeper>
    ghost var freed: seq<int>
    ghost var removed: set<int>
    ghost var owed: set<int>

    ghost function View(): Tables
      reads this
    {
      Tables(sockets, timeouts, sweepers, dying, freed, removed, owed)
    }

    constructor ()
      ensures View() == EMPTY
    {
      sockets, timeouts, sweepers, dying := map[], map[], map[], [];
      freed, removed, owed := [], {}, {};
    }

    method AddSocket(id: int)
      modifies this
      ensures View() == Handled(old(View()), Message.AddSocket(id))
    {
      if id !in sockets {
        sockets := sockets[id := Object(id, false, false)];
      }
    }

    method AddTimeout(id: int)
      modifies this
      ensures View() == Handled(old(View()), Message.AddTimeout(id))
    {
      if id !in timeouts {
        timeouts := timeouts[id := Object(id, false, false)];
      }
    }

    method SetOpaque(id: int, free: bool)
      modifies this
      ensures View() == Handled(old(View()), Message.SetOpaque(id, free))
    {
      if id in sockets {
        sockets := sockets[id := sockets[id].(freeable := free)];
      } else if id in timeouts {
        timeouts := timeouts[id := timeouts[id].(freeable := free)];
      } else {
        return;
      }
      owed := if free then owed + {id} else owed - {id};
    }

    method SetEvents(id: int, events: int)
      modifies this
      ensures View() == Handled(old(View()), Message.SetEvents(id, events))
      ensures id in sockets ==> sockets[id].armed
    {
      if id in sockets {
        sockets := sockets[id := sockets[id].(armed := true)];
      }
    }

    method SetInterval(id: int, interval: int)
      modifies this
      ensures View() == Handled(old(View()), Message.SetInterval(id, interval))
      ensures id in timeouts ==> (timeouts[id].armed <==> interval >= 0)
    {
      if id in timeouts {
        timeouts := timeouts[id := timeouts[id].(armed := interval >= 0)];
      }
    }

    method Remove(id: int)
      modifies this
      ensures View() == Removing(old(View()), id)
    {
      removed := removed + {id};
      if id in sweepers {
        dying := dying + [sweepers[id]];
        sweepers := sweepers - {id};
        return;
      }
      var s := Sweeper(id, None, None, true);
      if id in sockets {
        s := s.(pet1 := Some(sockets[id].(armed := false)));
        sockets := sockets - {id};
      }
      if id in timeouts {
        s := s.(pet2 := Some(timeouts[id].(armed := false)));
        timeouts := timeouts - {id};
      }
      assert old(id !in sockets) ==> old(sockets) - {id} == old(sockets);
      assert old(id !in timeouts) ==> old(timeouts) - {id} == old(timeouts);
      sweepers := sweepers[id := s];
    }

    method TimerMapped(id: int)
      requires id in sweepers
      modifies this
      ensures View() == SweptMapped(old(View()), id)
    {
      var s := sweepers[id];
      freed := freed + Let(s.pet1) + Let(s.pet2);
      sweepers := sweepers[id := Emptied(s)];
      Remove(s.id);
    }

    method TimerDying(i: nat)
      requires i < |dying|
      modifies this
      ensures View() == SweptDying(old(View()), i)
    {
      var s := dying[i];
      freed := freed + Let(s.pet1) + Let(s.pet2);
      dying := dying[i := Emptied(s)];
      Remove(s.id);
    }

    method Dispose(i: nat)
      requires i < |dying|
      modifies this
      ensures View() == Disposed(old(View()), i)
    {
      var s := dying[i];
      freed := freed + Let(s.pet1) + Let(s.pet2);
      dying := dying[..i] + dying[i + 1..];
    }
  }
}
