/** A batch of commands with undo: all of it happens or none of it. */
module CommandBatch {
  import opened Results

  /** A redo reports a code; an undo, where there is one, reports nothing. */
  datatype Item<!S> = Item(redo: S -> (S, Code), undo: Option<S -> S>)

  /** What the commands act on. */
  class World<S> {
    var state: S

    constructor (state: S)
      ensures this.state == state
    {
      this.state := state;
    }
  }

  // ---------------------------------------------------------------- specification

  /** Runs redos until one fails: the state, the undos to run (latest first), the last code. */
  function Forward<S>(items: seq<Item<S>>, s: S, undo: seq<S -> S>, code: Code): (S, seq<S -> S>, Code)
    decreases |items|
  {
    if items == [] then
      (s, undo, code)
    else
      var (s', c) := items[0].redo(s);
      if Failed(c) then (s', undo, c)
      else Forward(items[1..], s', if items[0].undo.Some? then [items[0].undo.value] + undo else undo, c)
  }

  function Backward<S>(undo: seq<S -> S>, s: S): S
    decreases |undo|
  {
    if undo == [] then s else Backward(undo[1..], undo[0](s))
  }

  function Executed<S>(items: seq<Item<S>>, s: S): (S, seq<S -> S>, Code) {
    if items == [] then
      (s, [], UNINITIALIZED)
    else
      var (s', u, c) := Forward(items, s, [], SUCCESS);
      if Failed(c) then (Backward(u, s'), [], c) else (s', u, c)
  }

  /** Along this run, an undo inverts its redo, and a redo without undo or with a failure
      changes nothing. */
  predicate Reversible<S(==)>(items: seq<Item<S>>, s: S)
    decreases |items|
  {
    items == [] ||
    var (s', c) := items[0].redo(s);
    if Failed(c) then s' == s
    else (if items[0].undo.Some? then items[0].undo.value(s') else s') == s && Reversible(items[1..], s')
  }

  // ---------------------------------------------------------------- implementation

  class Batch<S> {
    var transaction: seq<Item<S>>
    var undo: seq<S -> S>

    constructor ()
      ensures transaction == [] && undo == []
    {
      transaction, undo := [], [];
    }

    method AddBatch(another: Batch<S>)
      modifies this`transaction
      ensures transaction == old(transaction) + old(another.transaction)
    {
      transaction := transaction + another.transaction;
    }

    method AddItem(redo: S -> (S, Code), undo: Option<S -> S>)
      modifies this`transaction
      ensures transaction == old(transaction) + [Item(redo, undo)]
    {
      transaction := transaction + [Item(redo, undo)];
    }

    method Execute(world: World<S>) returns (code: Code)
      modifies this`undo, world
      ensures (world.state, undo, code) == Executed(transaction, old(world.state))
    {
      undo := [];
      if transaction == [] {
        return UNINITIALIZED;
      }
      code := SUCCESS;
      var k := 0;
      while k < |transaction|
        invariant k <= |transaction| && !Failed(code)
        invariant Forward(transaction, old(world.state), [], SUCCESS) ==
                  Forward(transaction[k..], world.state, undo, code)
      {
        var i := transaction[k];
        assert transaction[k..][0] == i && transaction[k..][1..] == transaction[k + 1..];
        var r := i.redo(world.state);
        world.state, code := r.0, r.1;
        if Failed(code) {
          break;
        }
        if i.undo.Some? {
          undo := [i.undo.value] + undo;
        }
        k := k + 1;
      }
      if Failed(code) {
        Rollback(world);
      }
    }

    method Rollback(world: World<S>)
      modifies this`undo, world
      ensures world.state == Backward(old(undo), old(world.state)) && undo == []
    {
      assert undo[0..] == undo;
      for k := 0 to |undo|
        invariant undo == old(undo)
        invariant Backward(undo, old(world.state)) == Backward(undo[k..], world.state)
      {
        assert undo[k..][0] == undo[k] && undo[k..][1..] == undo[k + 1..];
        world.state := undo[k](world.state);
      }
      undo := [];
    }
  }

  // ---------------------------------------------------------------- all or nothing

  lemma {:induction false} ForwardBackward<S>(items: seq<Item<S>>, s: S, undo: seq<S -> S>, code: Code)
    requires Reversible(items, s)
    ensures var r := Forward(items, s, undo, code);
            Backward(r.1, r.0) == Backward(undo, s)
    decreases |items|
  {
    if items != [] {
      var (s', c) := items[0].redo(s);
      if !Failed(c) {
        var u := if items[0].undo.Some? then [items[0].undo.value] + undo else undo;
        ForwardBackward(items[1..], s', u, c);
        if items[0].undo.Some? {
          assert u[0] == items[0].undo.value && u[1..] == undo;
        }
      }
    }
  }

  /** The state after all redos, each on what the ones before it left. */
  function Redone<S>(items: seq<Item<S>>, s: S): S {
    if items == [] then s else items[|items| - 1].redo(Redone(items[..|items| - 1], s)).0
  }

  predicate AllSucceed<S>(items: seq<Item<S>>, s: S) {
    forall k :: 0 <= k < |items| ==> !Failed(items[k].redo(Redone(items[..k], s)).1)
  }

  /** The code the k-th redo reports where its predecessors led. */
  function CodeAt<S>(items: seq<Item<S>>, s: S, k: nat): Code
    requires k < |items|
  {
    items[k].redo(Redone(items[..k], s)).1
  }

  ghost predicate FirstFailure<S>(items: seq<Item<S>>, s: S, k: nat) {
    k < |items| && Failed(CodeAt(items, s, k)) && forall i :: 0 <= i < k ==> !Failed(CodeAt(items, s, i))
  }

  /** An execution succeeds exactly when there is something to do and every redo succeeds
      where its predecessors led, and then it leads where all of them lead. It reports the
      first failure, or else what the last redo reported. */
  lemma ExecuteMeaning<S>(items: seq<Item<S>>, s: S)
    ensures var (s', _, c) := Executed(items, s);
            && (!Failed(c) <==> items != [] && AllSucceed(items, s))
            && (!Failed(c) ==> s' == Redone(items, s))
            && (if items == [] then c == UNINITIALIZED else Reported(items, s, c))
  {
    if items != [] {
      ForwardFrom(items, 0, s, [], SUCCESS);
      ForwardCode(items, 0, s, [], SUCCESS);
      assert items[0..] == items && items[..0] == [];
    }
  }

  /** `c` is the code of the first failure, or else the last redo's. */
  ghost predicate Reported<S>(items: seq<Item<S>>, s: S, c: Code)
    requires items != []
  {
    if Failed(c) then exists k :: FirstFailure(items, s, k) && c == CodeAt(items, s, k)
    else c == CodeAt(items, s, |items| - 1)
  }

  lemma {:induction false} ForwardCode<S>(items: seq<Item<S>>, k: nat, s: S, undo: seq<S -> S>, code: Code)
    requires k < |items| && !Failed(code) && forall i :: 0 <= i < k ==> !Failed(CodeAt(items, s, i))
    ensures Reported(items, s, Forward(items[k..], Redone(items[..k], s), undo, code).2)
    decreases |items| - k
  {
    var rest, i := items[k..], items[k];
    assert rest[0] == i && rest[1..] == items[k + 1..];
    assert items[..k + 1][..k] == items[..k] && items[..k + 1][k] == i;
    var (s', c) := i.redo(Redone(items[..k], s));
    assert s' == Redone(items[..k + 1], s) && c == CodeAt(items, s, k);
    if Failed(c) {
      assert FirstFailure(items, s, k);
    } else {
      var u := if i.undo.Some? then [i.undo.value] + undo else undo;
      if k + 1 < |items| {
        ForwardCode(items, k + 1, s, u, c);
      } else {
        assert rest[1..] == [] && Forward(rest[1..], s', u, c).2 == c;
      }
    }
  }

  lemma {:induction false} ForwardFrom<S>(items: seq<Item<S>>, k: nat, s: S, undo: seq<S -> S>, code: Code)
    requires k <= |items| && !Failed(code)
    ensures var r := Forward(items[k..], Redone(items[..k], s), undo, code);
            && (!Failed(r.2) <==> forall i :: k <= i < |items| ==> !Failed(items[i].redo(Redone(items[..i], s)).1))
            && (!Failed(r.2) ==> r.0 == Redone(items, s))
    decreases |items| - k
  {
    if k == |items| {
      assert items[..k] == items;
    } else {
      var rest, i := items[k..], items[k];
      assert rest[0] == i && rest[1..] == items[k + 1..];
      assert items[..k + 1][..k] == items[..k] && items[..k + 1][k] == i;
      var (s', c) := i.redo(Redone(items[..k], s));
      assert s' == Redone(items[..k + 1], s);
      if !Failed(c) {
        ForwardFrom(items, k + 1, s, if i.undo.Some? then [i.undo.value] + undo else undo, c);
      }
    }
  }

  /** A failed execution restores the state it found; after a successful one a rollback does,
      and a further rollback changes nothing. */
  lemma ExecuteThenRollback<S>(items: seq<Item<S>>, s: S)
    requires Reversible(items, s)
    ensures var (s', u, c) := Executed(items, s);
            && (Failed(c) ==> s' == s && u == [])
            && (!Failed(c) ==> Backward(u, s') == s)
            && Backward([], Backward(u, s')) == s
  {
    ForwardBackward(items, s, [], SUCCESS);
  }

  /** The same about the objects: whatever the execution reports, a rollback after it leaves
      the state the execution found, and so does a second rollback. */
  method RoundTrip<S>(batch: Batch<S>, world: World<S>) returns (code: Code)
    requires Reversible(batch.transaction, world.state)
    modifies batch`undo, world
    ensures world.state == old(world.state) && batch.undo == []
  {
    ExecuteThenRollback(batch.transaction, world.state);
    code := batch.Execute(world);
    batch.Rollback(world);
    batch.Rollback(world);
  }

  // ---------------------------------------------------------------- joined batches

  lemma {:induction false} ForwardJoin<S>(a: seq<Item<S>>, b: seq<Item<S>>, s: S, undo: seq<S -> S>, code: Code)
    requires !Failed(code)
    ensures var r := Forward(a, s, undo, code);
            Forward(a + b, s, undo, code) == if Failed(r.2) then r else Forward(b, r.0, r.1, r.2)
    decreases |a|
  {
    if a == [] {
      assert a + b == b;
    } else {
      assert (a + b)[0] == a[0] && (a + b)[1..] == a[1..] + b;
      var (s', c) := a[0].redo(s);
      if !Failed(c) {
        ForwardJoin(a[1..], b, s', if a[0].undo.Some? then [a[0].undo.value] + undo else undo, c);
      }
    }
  }

  /** A joined batch is reversible exactly when its first part is and, if that part succeeds,
      the second part is where the first one ends. */
  lemma {:induction false} ReversibleJoin<S>(a: seq<Item<S>>, b: seq<Item<S>>, s: S, undo: seq<S -> S>, code: Code)
    requires !Failed(code)
    ensures var r := Forward(a, s, undo, code);
            Reversible(a + b, s) <==> Reversible(a, s) && (Failed(r.2) || Reversible(b, r.0))
    decreases |a|
  {
    if a == [] {
      assert a + b == b;
    } else {
      assert (a + b)[0] == a[0] && (a + b)[1..] == a[1..] + b;
      var (s', c) := a[0].redo(s);
      if !Failed(c) {
        ReversibleJoin(a[1..], b, s', if a[0].undo.Some? then [a[0].undo.value] + undo else undo, c);
      }
    }
  }

  /** A failure in the second part of a joined batch undoes the first part as well. */
  lemma JoinedAllOrNothing<S>(a: seq<Item<S>>, b: seq<Item<S>>, s: S)
    requires a != [] && b != [] && Reversible(a, s)
    requires !Failed(Executed(a, s).2) ==> Reversible(b, Executed(a, s).0)
    ensures var (s', u, c) := Executed(a + b, s);
            && (Failed(c) <==> Failed(Executed(a, s).2) || Failed(Executed(b, Executed(a, s).0).2))
            && (Failed(c) ==> s' == s)
            && (!Failed(c) ==> s' == Executed(b, Executed(a, s).0).0 && Backward(u, s') == s)
  {
    ReversibleJoin(a, b, s, [], SUCCESS);
    ExecuteThenRollback(a + b, s);
    ForwardJoin(a, b, s, [], SUCCESS);
    var r := Forward(a, s, [], SUCCESS);
    if !Failed(r.2) {
      UndoIrrelevant(b, r.0, r.1, [], r.2, SUCCESS);
    }
  }

  lemma {:induction false} UndoIrrelevant<S>(items: seq<Item<S>>, s: S, u: seq<S -> S>, v: seq<S -> S>,
                                             c: Code, d: Code)
    requires items != []
    ensures Forward(items, s, u, c).0 == Forward(items, s, v, d).0
    ensures Forward(items, s, u, c).2 == Forward(items, s, v, d).2
    decreases |items|
  {
    var (s', e) := items[0].redo(s);
    if !Failed(e) && |items| > 1 {
      var i := items[0].undo;
      UndoIrrelevant(items[1..], s', if i.Some? then [i.value] + u else u, if i.Some? then [i.value] + v else v, e, e);
    }
  }
}
