/** The order in which the endpoints of one lookup are tried: all IPv4 ones, then all IPv6 ones. */
module AddressOrder {

  datatype Endpoint = Endpoint(v4: bool, address: string, port: nat)

  /** A default-constructed endpoint. */
  const DEFAULT_ENDPOINT := Endpoint(true, "0.0.0.0", 0)

  /** The endpoints of one protocol from position `i` on, in the order of the list. */
  function OfProtocol(list: seq<Endpoint>, v4: bool, i: nat): seq<Endpoint>
    decreases |list| - i
  {
    if i >= |list| then []
    else (if list[i].v4 == v4 then [list[i]] else []) + OfProtocol(list, v4, i + 1)
  }

  function Ordered(list: seq<Endpoint>): seq<Endpoint> {
    OfProtocol(list, true, 0) + OfProtocol(list, false, 0)
  }

  /** `Ordered` loses, adds and repeats nothing and puts every IPv4 endpoint before every IPv6 one. */
  lemma OrderedIsPartition(list: seq<Endpoint>)
    ensures multiset(Ordered(list)) == multiset(list)
    ensures forall i, j :: 0 <= i < j < |Ordered(list)| && Ordered(list)[j].v4 ==> Ordered(list)[i].v4
  {
    OfProtocolPure(list, true, 0);
    OfProtocolPure(list, false, 0);
    OrderedKeepsAll(list, 0);
    var four, six := OfProtocol(list, true, 0), OfProtocol(list, false, 0);
    forall i, j | 0 <= i < j < |Ordered(list)| && Ordered(list)[j].v4
      ensures Ordered(list)[i].v4
    {
      assert Ordered(list)[i] in four + six;
    }
  }

  lemma {:induction false} OfProtocolPure(list: seq<Endpoint>, v4: bool, i: nat)
    ensures forall e :: e in OfProtocol(list, v4, i) ==> e.v4 == v4
    decreases |list| - i
  {
    if i < |list| {
      OfProtocolPure(list, v4, i + 1);
    }
  }

  lemma {:induction false} OrderedKeepsAll(list: seq<Endpoint>, i: nat)
    requires i <= |list|
    ensures multiset(list[..i]) + multiset(OfProtocol(list, true, i)) + multiset(OfProtocol(list, false, i)) == multiset(list)
    decreases |list| - i
  {
    if i == |list| {
      assert list[..i] == list;
    } else {
      assert list[..i + 1] == list[..i] + [list[i]];
      OrderedKeepsAll(list, i + 1);
    }
  }

  /** Inside one protocol the order of the list is kept: the pieces of a split list stay in sequence. */
  lemma {:induction false} OfProtocolConcat(a: seq<Endpoint>, b: seq<Endpoint>, v4: bool, i: nat)
    requires i <= |a|
    ensures OfProtocol(a + b, v4, i) == OfProtocol(a, v4, i) + OfProtocol(b, v4, 0)
    decreases |a| - i
  {
    if i == |a| {
      OfProtocolShift(a, b, v4, 0);
    } else {
      OfProtocolConcat(a, b, v4, i + 1);
      var first := if a[i].v4 == v4 then [a[i]] else [];
      assert first + (OfProtocol(a, v4, i + 1) + OfProtocol(b, v4, 0)) == (first + OfProtocol(a, v4, i + 1)) + OfProtocol(b, v4, 0);
    }
  }

  lemma {:induction false} OfProtocolShift(a: seq<Endpoint>, b: seq<Endpoint>, v4: bool, i: nat)
    requires i <= |b|
    ensures OfProtocol(a + b, v4, |a| + i) == OfProtocol(b, v4, i)
    decreases |b| - i
  {
    if i < |b| {
      OfProtocolShift(a, b, v4, i + 1);
    }
  }

  /**
   `order` consists of the endpoints of the list, each position of the list once: `pos[k]` is where the
   k-th comes from. IPv4 comes before IPv6 and inside one protocol the order of the list is kept.
   */
  predicate TakenInOrder(list: seq<Endpoint>, order: seq<Endpoint>, pos: seq<nat>) {
    && |pos| == |order| == |list|
    && (forall k :: 0 <= k < |pos| ==> pos[k] < |list| && order[k] == list[pos[k]])
    && (forall j, k :: 0 <= j < k < |pos| ==> pos[j] != pos[k])
    && (forall j, k :: 0 <= j < k < |pos| && order[k].v4 ==> order[j].v4)
    && (forall j, k :: 0 <= j < k < |pos| && order[j].v4 == order[k].v4 ==> pos[j] < pos[k])
  }

  /** From position i on, the positions of the endpoints of one protocol. */
  function Positions(list: seq<Endpoint>, v4: bool, i: nat): (pos: seq<nat>)
    ensures forall k :: 0 <= k < |pos| ==> i <= pos[k] < |list| && list[pos[k]].v4 == v4
    ensures forall j, k :: 0 <= j < k < |pos| ==> pos[j] < pos[k]
    decreases |list| - i
  {
    if i >= |list| then [] else (if list[i].v4 == v4 then [i] else []) + Positions(list, v4, i + 1)
  }

  lemma {:induction false} OfProtocolAtPositions(list: seq<Endpoint>, v4: bool, i: nat)
    ensures var pos := Positions(list, v4, i);
            && |OfProtocol(list, v4, i)| == |pos|
            && forall k :: 0 <= k < |pos| ==> OfProtocol(list, v4, i)[k] == list[pos[k]]
    decreases |list| - i
  {
    if i < |list| {
      OfProtocolAtPositions(list, v4, i + 1);
    }
  }

  lemma {:induction false} BothProtocolsCount(list: seq<Endpoint>, i: nat)
    requires i <= |list|
    ensures |Positions(list, true, i)| + |Positions(list, false, i)| == |list| - i
    decreases |list| - i
  {
    if i < |list| {
      BothProtocolsCount(list, i + 1);
    }
  }

  /** The order of attempts is the order of the list, but for IPv4 before IPv6. */
  lemma OrderedKeepsOrder(list: seq<Endpoint>) returns (pos: seq<nat>)
    ensures TakenInOrder(list, Ordered(list), pos)
  {
    var four, six := Positions(list, true, 0), Positions(list, false, 0);
    pos := four + six;
    OfProtocolAtPositions(list, true, 0);
    OfProtocolAtPositions(list, false, 0);
    BothProtocolsCount(list, 0);
    forall k | 0 <= k < |pos|
      ensures Ordered(list)[k] == list[pos[k]] && (Ordered(list)[k].v4 <==> k < |four|)
    {
      if k >= |four| {
        assert pos[k] == six[k - |four|];
      }
    }
  }

  lemma NextIsV4(list: seq<Endpoint>, i: nat, j: nat)
    requires i < |list| && list[i].v4
    ensures OfProtocol(list, true, i) + OfProtocol(list, false, j) ==
            [list[i]] + (OfProtocol(list, true, i + 1) + OfProtocol(list, false, j))
  {
    assert OfProtocol(list, true, i) == [list[i]] + OfProtocol(list, true, i + 1);
  }

  lemma NextIsV6(list: seq<Endpoint>, i: nat, j: nat)
    requires i >= |list| && j < |list| && !list[j].v4
    ensures OfProtocol(list, true, i) + OfProtocol(list, false, j) ==
            [list[j]] + (OfProtocol(list, true, i) + OfProtocol(list, false, j + 1))
  {
    assert OfProtocol(list, false, j) == [list[j]] + OfProtocol(list, false, j + 1);
  }

  /** Two cursors over one resolver result. */
  class V4FirstIterator {
    const list: seq<Endpoint>
    var v4Iterator: nat
    var v6Iterator: nat

    ghost predicate Valid()
      reads this
    {
      && v4Iterator <= |list| && (v4Iterator < |list| ==> list[v4Iterator].v4)
      && v6Iterator <= |list| && (v6Iterator < |list| ==> !list[v6Iterator].v4)
    }

    /** What `Next` still has to return. */
    ghost function Remaining(): seq<Endpoint>
      requires Valid()
      reads this
    {
      OfProtocol(list, true, v4Iterator) + OfProtocol(list, false, v6Iterator)
    }

    constructor (list: seq<Endpoint>)
      ensures Valid() && Remaining() == Ordered(list)
    {
      this.list := list;
      v4Iterator, v6Iterator := 0, 0;
      new;
      v4Iterator := Skip(0, true);
      v6Iterator := Skip(0, false);
    }

    /** The loop that moves a cursor to the next endpoint of its protocol, or to the end. */
    method Skip(start: nat, v4: bool) returns (i: nat)
      requires start <= |list|
      ensures start <= i <= |list| && (i < |list| ==> list[i].v4 == v4)
      ensures OfProtocol(list, v4, i) == OfProtocol(list, v4, start)
    {
      i := start;
      while i < |list| && list[i].v4 != v4
        invariant start <= i <= |list|
        invariant OfProtocol(list, v4, i) == OfProtocol(list, v4, start)
      {
        i := i + 1;
      }
    }

    method Next() returns (endpoint: Endpoint)
      requires Valid()
      modifies this
      ensures Valid()
      ensures old(Remaining()) == [] ==> endpoint == DEFAULT_ENDPOINT && Remaining() == []
      ensures old(Remaining()) != [] ==> old(Remaining()) == [endpoint] + Remaining()
    {
      endpoint := DEFAULT_ENDPOINT;
      if v4Iterator < |list| {
        endpoint := list[v4Iterator];
        NextIsV4(list, v4Iterator, v6Iterator);
        v4Iterator := Skip(v4Iterator + 1, true);
      } else if v6Iterator < |list| {
        endpoint := list[v6Iterator];
        NextIsV6(list, v4Iterator, v6Iterator);
        v6Iterator := Skip(v6Iterator + 1, false);
      }
    }

    predicate HasNext()
      requires Valid()
      reads this
      ensures HasNext() <==> Remaining() != []
    {
      v4Iterator < |list| || v6Iterator < |list|
    }
  }

  /** Draining the iterator over a lookup result yields the whole result in that order, each endpoint once. */
  method Drain(list: seq<Endpoint>) returns (order: seq<Endpoint>, ghost pos: seq<nat>)
    ensures order == Ordered(list) && TakenInOrder(list, order, pos)
  {
    var endpoints := new V4FirstIterator(list);
    order := [];
    while endpoints.HasNext()
      invariant endpoints.Valid() && fresh(endpoints) && order + endpoints.Remaining() == Ordered(list)
      decreases |endpoints.Remaining()|
    {
      ghost var rest := endpoints.Remaining();
      var endpoint := endpoints.Next();
      assert order + ([endpoint] + endpoints.Remaining()) == (order + [endpoint]) + endpoints.Remaining();
      order := order + [endpoint];
    }
    pos := OrderedKeepsOrder(list);
  }
}
