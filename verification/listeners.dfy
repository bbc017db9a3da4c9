/**
 * Listener lists: `add*Listener` pushes, `remove*Listener` keeps every entry
 * that is not identical to the one removed.
 */
module Listeners {

  /** A listener callback, known to the model only by its identity. */
  type Listener = nat

  /** `listeners.filter(l => l !== x)`. */
  function Without(listeners: seq<Listener>, x: Listener): (r: seq<Listener>)
    ensures x !in r
    ensures forall y :: multiset(r)[y] == if y == x then 0 else multiset(listeners)[y]
  {
    if listeners == [] then []
    else
      assert listeners == [listeners[0]] + listeners[1..];
      (if listeners[0] == x then [] else [listeners[0]]) + Without(listeners[1..], x)
  }

  /** One step of the filter: the head stays exactly when it is not the listener removed. */
  lemma WithoutCons(head: Listener, tail: seq<Listener>, x: Listener)
    ensures Without([head] + tail, x) == (if head == x then [] else [head]) + Without(tail, x)
  {
    assert ([head] + tail)[0] == head && ([head] + tail)[1..] == tail;
  }

  /**
   * Removal works piece by piece, so the listeners that stay keep their
   * relative order.
   */
  lemma {:induction false} WithoutConcat(a: seq<Listener>, b: seq<Listener>, x: Listener)
    ensures Without(a + b, x) == Without(a, x) + Without(b, x)
  {
    if a == [] {
      assert a + b == b;
    } else {
      var head, tail := a[0], a[1..];
      assert a == [head] + tail;
      assert a + b == [head] + (tail + b);
      WithoutCons(head, tail, x);
      WithoutCons(head, tail + b, x);
      WithoutConcat(tail, b, x);
    }
  }

  /** Removing a listener that was never added changes nothing. */
  lemma {:induction false} WithoutAbsent(listeners: seq<Listener>, x: Listener)
    requires x !in listeners
    ensures Without(listeners, x) == listeners
  {
    if listeners != [] {
      WithoutAbsent(listeners[1..], x);
    }
  }

  /** Adding then removing a listener not already present restores the list. */
  lemma AddThenRemove(listeners: seq<Listener>, x: Listener)
    requires x !in listeners
    ensures Without(listeners + [x], x) == listeners
  {
    WithoutConcat(listeners, [x], x);
    WithoutAbsent(listeners, x);
  }
}
