/** LogController: a list of log listeners without duplicates, and the
    broadcast of a message to each of them in turn. Listeners are compared
    by equality, as Python's `in` and `list.remove` compare them. */
module LogControl {

  predicate NoDuplicates<L(==,!new)>(ls: seq<L>) {
    forall i, j :: 0 <= i < j < |ls| ==> ls[i] != ls[j]
  }

  /** `if listener not in ls: ls.append(listener)` on a value. */
  function WithListener<L(==,!new)>(ls: seq<L>, listener: L): (r: seq<L>)
    ensures listener in r
    ensures forall l :: l in r <==> l in ls || l == listener
  {
    if listener in ls then ls else ls + [listener]
  }

  /** The position of the first occurrence of listener in ls. */
  function FirstIndex<L(==,!new)>(ls: seq<L>, listener: L): (i: nat)
    requires listener in ls
    ensures i < |ls| && ls[i] == listener && listener !in ls[..i]
  {
    if ls[0] == listener then 0
    else
      assert listener in ls[1..];
      var i := 1 + FirstIndex(ls[1..], listener);
      assert ls[..i] == [ls[0]] + ls[1..][..i - 1];
      i
  }

  /** `if listener in ls: ls.remove(listener)`: an absent listener leaves the
      list alone; otherwise one copy of it goes, and it is the first one, with
      the other listeners kept in their order. */
  function WithoutListener<L(==,!new)>(ls: seq<L>, listener: L): (r: seq<L>)
    ensures listener !in ls ==> r == ls
    ensures listener in ls ==> |r| == |ls| - 1 && multiset(r) == multiset(ls) - multiset{listener}
    ensures listener in ls ==>
              exists i :: 0 <= i < |ls| && ls[i] == listener && listener !in ls[..i] && r == ls[..i] + ls[i + 1..]
  {
    if listener in ls then
      var i := FirstIndex(ls, listener);
      assert ls == ls[..i] + [ls[i]] + ls[i + 1..];
      ls[..i] + ls[i + 1..]
    else ls
  }

  /** Adding keeps the list free of duplicates. */
  lemma AddKeepsNoDuplicates<L(!new)>(ls: seq<L>, listener: L)
    requires NoDuplicates(ls)
    ensures NoDuplicates(WithListener(ls, listener))
  {
    var r := WithListener(ls, listener);
    if listener !in ls {
      forall i, j | 0 <= i < j < |r| ensures r[i] != r[j] {
        if j == |ls| {
          assert r[i] == ls[i];
        }
      }
    }
  }

  /** Adding a listener twice is the same as adding it once. */
  lemma {:induction false} AddIdempotent<L(!new)>(ls: seq<L>, listener: L)
    ensures WithListener(WithListener(ls, listener), listener) == WithListener(ls, listener)
  {
    assert listener in WithListener(ls, listener);
  }

  /** A new listener goes to the end; the listeners already there keep their order. */
  lemma AddAppends<L(!new)>(ls: seq<L>, listener: L)
    requires listener !in ls
    ensures WithListener(ls, listener) == ls + [listener]
    ensures WithListener(ls, listener)[..|ls|] == ls
  {
  }

  /** Removing keeps the list free of duplicates, and from such a list it
      removes the listener entirely. */
  lemma {:induction false} RemoveFromNoDuplicates<L(!new)>(ls: seq<L>, listener: L)
    requires NoDuplicates(ls)
    ensures NoDuplicates(WithoutListener(ls, listener))
    ensures listener !in WithoutListener(ls, listener)
    ensures listener in ls ==> |WithoutListener(ls, listener)| == |ls| - 1
  {
    var r := WithoutListener(ls, listener);
    if listener in ls {
      var i := FirstIndex(ls, listener);
      assert |r| == |ls| - 1;
      forall k | 0 <= k < |r| ensures r[k] == if k < i then ls[k] else ls[k + 1] {
      }
      forall a, b | 0 <= a < b < |r| ensures r[a] != r[b] {
        var a' := if a < i then a else a + 1;
        var b' := if b < i then b else b + 1;
        assert r[a] == ls[a'] && r[b] == ls[b'] && a' < b';
      }
      forall k | 0 <= k < |r| ensures r[k] != listener {
        var k' := if k < i then k else k + 1;
        assert r[k] == ls[k'] && k' != i;
      }
    }
  }

  /** Removing what was just added, from a list without it, gives the list back. */
  lemma {:induction false} AddThenRemove<L(!new)>(ls: seq<L>, listener: L)
    requires listener !in ls
    ensures WithoutListener(WithListener(ls, listener), listener) == ls
  {
    var r := ls + [listener];
    forall j | 0 <= j < |ls| ensures r[j] != listener {
      assert r[j] == ls[j];
    }
    assert FirstIndex(r, listener) == |ls|;
    assert r[..|ls|] == ls;
  }

  /** One call of a listener: who was called, with which message. */
  datatype Call<L> = Call(listener: L, message: string)

  class LogController<L(==,!new)> {
    var listeners: seq<L>

    /** The listener list never holds the same listener twice. */
    predicate Valid()
      reads this
    {
      NoDuplicates(listeners)
    }

    constructor()
      ensures Valid() && listeners == []
    {
      listeners := [];
    }

    /** add_listener */
    method AddListener(listener: L)
      requires Valid()
      modifies this
      ensures Valid()
      ensures listeners == WithListener(old(listeners), listener)
    {
      AddKeepsNoDuplicates(listeners, listener);
      if listener !in listeners {
        listeners := listeners + [listener];
      }
    }

    /** remove_listener */
    method RemoveListener(listener: L)
      requires Valid()
      modifies this
      ensures Valid() && listener !in listeners
      ensures listeners == WithoutListener(old(listeners), listener)
    {
      RemoveFromNoDuplicates(listeners, listener);
      if listener in listeners {
        var i := FirstIndex(listeners, listener);
        listeners := listeners[..i] + listeners[i + 1..];
      }
    }

    /** log_message: every listener is called once with the message, in list
        order. The callbacks' own effects are not modelled; the calls made
        are returned as a trace. */
    method LogMessage(message: string) returns (calls: seq<Call<L>>)
      ensures |calls| == |listeners|
      ensures forall i :: 0 <= i < |calls| ==> calls[i] == Call(listeners[i], message)
    {
      calls := [];
      var i := 0;
      while i < |listeners|
        invariant 0 <= i <= |listeners| && |calls| == i
        invariant forall k :: 0 <= k < i ==> calls[k] == Call(listeners[k], message)
      {
        calls := calls + [Call(listeners[i], message)];
        i := i + 1;
      }
    }
  }

  /** With no duplicates, a broadcast reaches each registered listener exactly once. */
  lemma {:induction false} BroadcastOnce<L(!new)>(ls: seq<L>, calls: seq<Call<L>>, message: string, listener: L)
    requires NoDuplicates(ls) && listener in ls
    requires |calls| == |ls| && forall i :: 0 <= i < |calls| ==> calls[i] == Call(ls[i], message)
    ensures exists i :: 0 <= i < |calls| && calls[i] == Call(listener, message)
                        && forall k :: 0 <= k < |calls| && k != i ==> calls[k].listener != listener
  {
    var i :| 0 <= i < |ls| && ls[i] == listener;
    assert calls[i] == Call(listener, message);
    forall k | 0 <= k < |calls| && k != i ensures calls[k].listener != listener {
      assert calls[k].listener == ls[k];
      if k < i {
        assert ls[k] != ls[i];
      } else {
        assert ls[i] != ls[k];
      }
    }
  }
}
