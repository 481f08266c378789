/**
 * `Signal` and `Reactive_Object` of maze_game/game_core.js: an ordered set
 * of callbacks with connect, disconnect, emit-with-self-removal, clear and a
 * one-shot delete, and the teardown order of an observed object.
 *
 * Callbacks are foreign code: a callback is an identity, and what it
 * returns when called is an input (`outcome`). Callbacks that connect or
 * disconnect other callbacks while being called are not modelled.
 */
module GameCore {
  import opened Wrappers

  /** `Signal.REMOVE`: a callback returning it is disconnected after its call. */
  const Remove: int := -1

  /** A function value handed to `connect`. */
  datatype Callable = Callable(id: nat)

  /** The argument of `connect`: a function, or any other value. */
  datatype Connectable = Function(f: Callable) | NotAFunction

  predicate Distinct(s: seq<Callable>) {
    forall i, j :: 0 <= i < j < |s| ==> s[i] != s[j]
  }

  /** `Set.delete`: the set without x, order kept. */
  function Without(s: seq<Callable>, x: Callable): (t: seq<Callable>) {
    if s == [] then []
    else if s[0] == x then Without(s[1..], x)
    else [s[0]] + Without(s[1..], x)
  }

  /** The connections that survive an emit: those whose call did not return `Remove`. */
  function Kept(s: seq<Callable>, outcome: Callable -> int): (t: seq<Callable>) {
    if s == [] then []
    else if outcome(s[|s| - 1]) == Remove then Kept(s[..|s| - 1], outcome)
    else Kept(s[..|s| - 1], outcome) + [s[|s| - 1]]
  }

  /** `Set.delete` removes x and nothing else. */
  lemma {:induction false} WithoutMembers(s: seq<Callable>, x: Callable, c: Callable)
    ensures c in Without(s, x) <==> c in s && c != x
  {
    if s != [] {
      WithoutMembers(s[1..], x, c);
      assert s == [s[0]] + s[1..];
    }
  }

  /** The survivors of an emit are the connections whose call did not return `Remove`. */
  lemma {:induction false} KeptMembers(s: seq<Callable>, outcome: Callable -> int, c: Callable)
    ensures c in Kept(s, outcome) <==> c in s && outcome(c) != Remove
  {
    if s != [] {
      KeptMembers(s[..|s| - 1], outcome, c);
      assert s == s[..|s| - 1] + [s[|s| - 1]];
    }
  }

  lemma {:induction false} WithoutAbsent(s: seq<Callable>, x: Callable)
    requires x !in s
    ensures Without(s, x) == s
  {
    if s != [] {
      WithoutAbsent(s[1..], x);
    }
  }

  lemma {:induction false} WithoutAppend(a: seq<Callable>, b: seq<Callable>, x: Callable)
    ensures Without(a + b, x) == Without(a, x) + Without(b, x)
  {
    if a == [] {
      assert a + b == b;
    } else {
      assert (a + b)[0] == a[0];
      assert (a + b)[1..] == a[1..] + b;
      WithoutAppend(a[1..], b, x);
      if a[0] != x {
        assert Without(a + b, x) == [a[0]] + Without(a[1..] + b, x);
        assert [a[0]] + (Without(a[1..], x) + Without(b, x)) == ([a[0]] + Without(a[1..], x)) + Without(b, x);
      }
    }
  }

  lemma {:induction false} KeptDistinct(s: seq<Callable>, outcome: Callable -> int)
    requires Distinct(s)
    ensures Distinct(Kept(s, outcome))
  {
    if s != [] {
      KeptDistinct(s[..|s| - 1], outcome);
      KeptMembers(s[..|s| - 1], outcome, s[|s| - 1]);
    }
  }

  lemma DistinctWithout(s: seq<Callable>, x: Callable)
    requires Distinct(s)
    ensures Distinct(Without(s, x))
  {
    if s != [] {
      assert s[0] !in s[1..];
      DistinctWithout(s[1..], x);
      WithoutMembers(s[1..], x, s[0]);
    }
  }

  class Signal {
    /** `#connections`, in insertion order, without repeats. */
    var connections: seq<Callable>
    /** `this.delete = true` has run: the method is shadowed by a boolean. */
    var deleted: bool

    ghost predicate Valid()
      reads this
    {
      Distinct(connections)
    }

    constructor()
      ensures connections == [] && !deleted && Valid()
    {
      connections := [];
      deleted := false;
    }

    /**
     * `connect`: a function is added (once: the store is a set) and its
     * disconnector, modelled by the callable it removes, is returned; any
     * other value changes nothing and yields undefined.
     */
    method Connect(v: Connectable) returns (disconnector: Option<Callable>)
      requires Valid()
      modifies this
      ensures Valid() && deleted == old(deleted)
      ensures v.NotAFunction? ==> disconnector == None && connections == old(connections)
      ensures v.Function? ==>
        disconnector == Some(v.f)
        && connections == (if v.f in old(connections) then old(connections) else old(connections) + [v.f])
    {
      if v.NotAFunction? {
        return None;
      }
      if v.f !in connections {
        connections := connections + [v.f];
      }
      disconnector := Some(v.f);
    }

    /** `disconnect`: removes the given callable, and only it. */
    method Disconnect(f: Callable)
      requires Valid()
      modifies this
      ensures Valid() && deleted == old(deleted)
      ensures connections == Without(old(connections), f)
    {
      DistinctWithout(connections, f);
      connections := Without(connections, f);
    }

    /**
     * `emit`: calls every connection once, in insertion order, and
     * disconnects each call that returned `Remove`. Deleting the current
     * element of a `Set` does not disturb the iteration.
     */
    method Emit(outcome: Callable -> int) returns (calls: seq<Callable>)
      requires Valid()
      modifies this
      ensures Valid() && deleted == old(deleted)
      ensures calls == old(connections)
      ensures connections == Kept(old(connections), outcome)
    {
      var snapshot := connections;
      calls := [];
      var i := 0;
      while i < |snapshot|
        invariant 0 <= i <= |snapshot| && Valid() && deleted == old(deleted)
        invariant calls == snapshot[..i]
        invariant connections == Kept(snapshot[..i], outcome) + snapshot[i..]
      {
        assert snapshot[..i + 1] == snapshot[..i] + [snapshot[i]];
        calls := calls + [snapshot[i]];
        Visit(snapshot, i, outcome);
        i := i + 1;
      }
      assert snapshot[..i] == snapshot;
    }

    /** One step of `emit`: the call of `snapshot[i]`, and its disconnection when the call returned `Remove`. */
    method Visit(snapshot: seq<Callable>, i: int, outcome: Callable -> int)
      requires Valid() && Distinct(snapshot) && 0 <= i < |snapshot|
      requires connections == Kept(snapshot[..i], outcome) + snapshot[i..]
      modifies this
      ensures Valid() && deleted == old(deleted)
      ensures connections == Kept(snapshot[..i + 1], outcome) + snapshot[i + 1..]
    {
      var c := snapshot[i];
      KeptStep(snapshot, i, outcome);
      ghost var pre := Kept(snapshot[..i], outcome);
      if outcome(c) == Remove {
        RemoveCurrent(snapshot, i, outcome);
        Disconnect(c);
      } else {
        assert connections == pre + ([c] + snapshot[i + 1..]);
        assert connections == (pre + [c]) + snapshot[i + 1..];
      }
    }

    /** `clear`: no connection is left. */
    method Clear()
      modifies this
      ensures connections == [] && deleted == old(deleted) && Valid()
    {
      connections := [];
    }

    /**
     * `delete`: shadows itself with `true` and clears. A second call finds a
     * boolean where the method was and fails (`ok` is false) without change.
     */
    method Delete() returns (ok: bool)
      modifies this
      ensures ok <==> !old(deleted)
      ensures ok ==> deleted && connections == []
      ensures !ok ==> deleted && connections == old(connections)
    {
      if deleted {
        return false;
      }
      deleted := true;
      Clear();
      ok := true;
    }
  }

  /** `Reactive_Object`: four signals and the `deleted` flag. */
  class ReactiveObject {
    const onChange: Signal
    const onClear: Signal
    const onLoad: Signal
    const onDelete: Signal
    var deleted: bool

    ghost predicate Valid()
      reads this, onChange, onClear, onLoad, onDelete
    {
      onChange != onClear && onChange != onLoad && onChange != onDelete
      && onClear != onLoad && onClear != onDelete && onLoad != onDelete
      && onChange.Valid() && onClear.Valid() && onLoad.Valid() && onDelete.Valid()
    }

    constructor()
      ensures Valid() && !deleted
      ensures fresh(onChange) && fresh(onClear) && fresh(onLoad) && fresh(onDelete)
      ensures onChange.connections == [] && onClear.connections == [] && onLoad.connections == [] && onDelete.connections == []
      ensures !onChange.deleted && !onClear.deleted && !onLoad.deleted && !onDelete.deleted
    {
      onChange := new Signal();
      onClear := new Signal();
      onLoad := new Signal();
      onDelete := new Signal();
      deleted := false;
    }

    /** `clear`: emits `on_clear`. */
    method Clear(outcome: Callable -> int) returns (calls: seq<Callable>)
      requires Valid()
      modifies onClear
      ensures Valid()
      ensures calls == old(onClear.connections) && onClear.connections == Kept(old(onClear.connections), outcome)
      ensures onClear.deleted == old(onClear.deleted)
    {
      calls := onClear.Emit(outcome);
    }

    /** `load`: emits `on_load`. */
    method Load(outcome: Callable -> int) returns (calls: seq<Callable>)
      requires Valid()
      modifies onLoad
      ensures Valid()
      ensures calls == old(onLoad.connections) && onLoad.connections == Kept(old(onLoad.connections), outcome)
      ensures onLoad.deleted == old(onLoad.deleted)
    {
      calls := onLoad.Emit(outcome);
    }

    /**
     * `delete`: sets `deleted`, emits `on_clear` to its current
     * connections, deletes `on_change`, `on_clear` and `on_load`, then emits
     * `on_delete` to its connections and deletes it. A signal deleted before
     * makes its `delete()` fail (`ok` is false) and ends the sequence there.
     */
    method Delete(clearOutcome: Callable -> int, deleteOutcome: Callable -> int)
      returns (ok: bool, cleared: seq<Callable>, notified: seq<Callable>)
      requires Valid()
      modifies this, onChange, onClear, onLoad, onDelete
      ensures Valid()
      ensures deleted && cleared == old(onClear.connections)
      ensures ok <==> !old(onChange.deleted) && !old(onClear.deleted) && !old(onLoad.deleted) && !old(onDelete.deleted)
      ensures ok ==>
        notified == old(onDelete.connections)
        && onChange.connections == [] && onClear.connections == []
        && onLoad.connections == [] && onDelete.connections == []
        && onChange.deleted && onClear.deleted && onLoad.deleted && onDelete.deleted
    {
      notified := [];
      deleted := true;
      cleared := Clear(clearOutcome);
      ok := onChange.Delete();
      if !ok {
        return;
      }
      ok := onClear.Delete();
      if !ok {
        return;
      }
      ok := onLoad.Delete();
      if !ok {
        return;
      }
      notified := onDelete.Emit(deleteOutcome);
      ok := onDelete.Delete();
    }
  }

  /** One more visited callable: it survives unless its call returned `Remove`. */
  lemma KeptStep(snapshot: seq<Callable>, i: int, outcome: Callable -> int)
    requires 0 <= i < |snapshot|
    ensures snapshot[..i + 1] == snapshot[..i] + [snapshot[i]]
    ensures snapshot[i..] == [snapshot[i]] + snapshot[i + 1..]
    ensures Kept(snapshot[..i + 1], outcome)
      == Kept(snapshot[..i], outcome) + (if outcome(snapshot[i]) == Remove then [] else [snapshot[i]])
  {
    assert snapshot[..i + 1][..i] == snapshot[..i];
  }

  /** Disconnecting the current callable of emit removes exactly the head of the unvisited part. */
  lemma RemoveCurrent(snapshot: seq<Callable>, i: int, outcome: Callable -> int)
    requires Distinct(snapshot) && 0 <= i < |snapshot| && outcome(snapshot[i]) == Remove
    ensures Without(Kept(snapshot[..i], outcome) + snapshot[i..], snapshot[i])
      == Kept(snapshot[..i + 1], outcome) + snapshot[i + 1..]
  {
    var c := snapshot[i];
    var pre := Kept(snapshot[..i], outcome);
    assert c !in snapshot[..i];
    KeptMembers(snapshot[..i], outcome, c);
    assert c !in snapshot[i + 1..];
    WithoutAbsent(pre, c);
    WithoutAbsent(snapshot[i + 1..], c);
    assert snapshot[i..] == [c] + snapshot[i + 1..];
    WithoutAppend(pre, snapshot[i..], c);
    assert snapshot[..i + 1][..i] == snapshot[..i];
  }

  /** An emit keeps the surviving connections in their order, and never adds one. */
  lemma {:induction false} KeptIsSubsequence(s: seq<Callable>, outcome: Callable -> int)
    ensures |Kept(s, outcome)| <= |s|
    ensures (forall c :: c in s ==> outcome(c) != Remove) ==> Kept(s, outcome) == s
  {
    if s != [] {
      KeptIsSubsequence(s[..|s| - 1], outcome);
      assert s[..|s| - 1] + [s[|s| - 1]] == s;
    }
  }
}
