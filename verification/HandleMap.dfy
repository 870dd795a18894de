/** Unique 32-bit handles for objects. Handle 0 is never given out. */
module HandleMaps {
  import opened Common

  const HANDLES: nat := 0x1_0000_0000

  type handle = h: int | 0 <= h < 0x1_0000_0000

  /** `h + k` with wrap-around. */
  function Plus(h: handle, k: nat): (r: handle) {
    (h + k) % HANDLES
  }

  /** Neither 0 nor in use. */
  predicate Free(used: set<handle>, h: handle) {
    h != 0 && h !in used
  }

  /** `k` steps from `from` lie the first free handle, in cyclic order. */
  ghost predicate FirstFree(used: set<handle>, from: handle, k: nat) {
    Free(used, Plus(from, k)) && forall j :: 0 <= j < k ==> !Free(used, Plus(from, j))
  }

  lemma FirstFreeUnique(used: set<handle>, from: handle, j: nat, k: nat)
    requires FirstFree(used, from, j) && FirstFree(used, from, k)
    ensures j == k
  {
    assert j < k ==> !Free(used, Plus(from, j));
    assert k < j ==> !Free(used, Plus(from, k));
  }

  /** From any start, every handle is less than 2^32 steps away. */
  function Distance(from: handle, to: handle): (k: nat)
    ensures k < HANDLES && Plus(from, k) == to
  {
    if from <= to then to - from else to - from + HANDLES
  }

  datatype Event = Allocated(h: handle) | Released(h: handle) | ReleasedAll

  datatype State = State(next: handle, used: set<handle>)

  /** What each operation does to the search position and the handles in use. */
  ghost predicate Step(s: State, e: Event, n: State) {
    match e
    case Allocated(h) =>
      && (exists k: nat :: FirstFree(s.used, s.next, k) && h == Plus(s.next, k))
      && n == State(Plus(h, 1), s.used + {h})
    case Released(h) => n == State(s.next, s.used - {h})
    case ReleasedAll => n == State(s.next, {})
  }

  class HandleMap<T> {
    var nextHandle: handle
    var content: map<handle, T>

    ghost function View(): State
      reads this
    {
      State(nextHandle, content.Keys)
    }

    constructor ()
      ensures View() == State(1, {}) && nextHandle == 1 && content == map[]
    {
      nextHandle, content := 1, map[];
    }

    /** The first free handle at or after `nextHandle`; the search ends whenever any handle is free. */
    method Allocate(element: T) returns (h: handle, ghost k: nat)
      requires exists free :: Free(content.Keys, free)
      modifies this
      ensures FirstFree(old(content).Keys, old(nextHandle), k) && k < HANDLES
      ensures h == Plus(old(nextHandle), k) && nextHandle == Plus(h, 1)
      ensures content == old(content)[h := element] && Step(old(View()), Allocated(h), View())
    {
      ghost var free :| Free(content.Keys, free);
      ghost var limit := Distance(nextHandle, free);
      k := 0;
      while nextHandle in content || nextHandle == 0
        invariant k <= limit && nextHandle == Plus(old(nextHandle), k) && content == old(content)
        invariant forall j :: 0 <= j < k ==> !Free(content.Keys, Plus(old(nextHandle), j))
        decreases limit - k
      {
        nextHandle := Plus(nextHandle, 1);
        k := k + 1;
      }
      assert FirstFree(old(content).Keys, old(nextHandle), k);
      h := nextHandle;
      content := content[h := element];
      assert content.Keys == old(content).Keys + {h};
      nextHandle := Plus(nextHandle, 1);
    }

    /** `isRequested` tells the elements of the requested type; others are found as little as missing ones. */
    method Find(h: handle, isRequested: T -> bool) returns (element: Option<T>)
      ensures element == if h in content && isRequested(content[h]) then Some(content[h]) else None
    {
      if h !in content {
        return None;
      } else if isRequested(content[h]) {
        return Some(content[h]);
      } else {
        return None;
      }
    }

    method Release(h: handle)
      modifies this`content
      ensures content == old(content) - {h} && Step(old(View()), Released(h), View())
    {
      content := content - {h};
    }

    method ReleaseAll()
      modifies this`content
      ensures content == map[] && Step(old(View()), ReleasedAll, View())
    {
      content := map[];
    }
  }

  // ----- runs -----

  /** `states` is a run of the events from a new map on. */
  ghost predicate Run(es: seq<Event>, states: seq<State>) {
    && |states| == |es| + 1 && states[0] == State(1, {})
    && forall i :: 0 <= i < |es| ==> Step(states[i], es[i], states[i + 1])
  }

  /** How many of the first n events are allocations. */
  function Allocations(es: seq<Event>, n: nat): nat
    requires n <= |es|
  {
    if n == 0 then 0 else Allocations(es, n - 1) + if es[n - 1].Allocated? then 1 else 0
  }

  /** During the first 2^32 - 1 allocations, what is in use are handles given out before the next one. */
  lemma {:induction false} StateAfter(es: seq<Event>, states: seq<State>, n: nat)
    requires Run(es, states) && n <= |es| && Allocations(es, n) < HANDLES
    ensures states[n].next == Plus(1, Allocations(es, n))
    ensures forall h :: h in states[n].used ==> 1 <= h <= Allocations(es, n)
  {
    if n > 0 {
      StateAfter(es, states, n - 1);
      var s, a := states[n - 1], Allocations(es, n - 1);
      assert Step(s, es[n - 1], states[n]);
      if es[n - 1].Allocated? {
        var k: nat :| FirstFree(s.used, s.next, k) && es[n - 1].h == Plus(s.next, k);
        assert s.next == a + 1 && Plus(s.next, 0) == s.next;
        assert FirstFree(s.used, s.next, 0);
        FirstFreeUnique(s.used, s.next, 0, k);
      }
    }
  }

  /**
   Whatever is released in between, the first 2^32 - 1 allocations give out 1, 2, 3, ...: no
   handle is given out twice in that window.
   */
  lemma HandlesCountUp(es: seq<Event>, states: seq<State>, i: nat)
    requires Run(es, states) && i < |es| && es[i].Allocated? && Allocations(es, i) < HANDLES - 1
    ensures es[i].h == Allocations(es, i) + 1
  {
    StateAfter(es, states, i);
    StateAfter(es, states, i + 1);
    assert Step(states[i], es[i], states[i + 1]);
    assert states[i + 1].next == Plus(es[i].h, 1) == Plus(1, Allocations(es, i) + 1);
  }
}
