// The channels between a device port and the proxy core: one relay per attachment, one queue per
// kind of message shared by all relays, and the order each relay's messages keep.

module Relays {

  /** A message on its way, with the relay it was put into and the device that relay is for. */
  datatype Item<+T> = Item(relay: nat, device: string, value: T)

  /** The relays' own queues, the shared queue, and the logs of what was put in and taken out. */
  datatype Pipes<+T> = Pipes(queues: seq<seq<Item<T>>>, shared: seq<Item<T>>, taken: seq<Item<T>>, produced: seq<Item<T>>)

  function NoPipes<T>(): Pipes<T> {
    Pipes([], [], [], [])
  }

  function OpenRelay<T>(p: Pipes<T>): Pipes<T> {
    p.(queues := p.queues + [[]])
  }

  function Put<T>(p: Pipes<T>, item: Item<T>): Pipes<T>
    requires item.relay < |p.queues|
  {
    p.(queues := p.queues[item.relay := p.queues[item.relay] + [item]], produced := p.produced + [item])
  }

  /** The relay's task moves the head of its queue to the shared queue. */
  function Move<T>(p: Pipes<T>, r: nat): Pipes<T>
    requires r < |p.queues| && p.queues[r] != []
  {
    p.(queues := p.queues[r := p.queues[r][1..]], shared := p.shared + [p.queues[r][0]])
  }

  function TakeOne<T>(p: Pipes<T>): Pipes<T>
    requires p.shared != []
  {
    p.(shared := p.shared[1..], taken := p.taken + [p.shared[0]])
  }

  /** The items that went through relay `r`. */
  function Via<T>(items: seq<Item<T>>, r: nat): seq<Item<T>>
    decreases |items|
  {
    if items == [] then []
    else
      var front, last := items[..|items| - 1], items[|items| - 1];
      if last.relay == r then Via(front, r) + [last] else Via(front, r)
  }

  function Waiting<T>(p: Pipes<T>, r: nat): seq<Item<T>> {
    if r < |p.queues| then p.queues[r] else []
  }

  /** Relay by relay, what was taken and what is still on its way is what was put in, in that order. */
  ghost predicate Conserved<T>(p: Pipes<T>) {
    && (forall r: nat :: Via(p.taken + p.shared, r) + Waiting(p, r) == Via(p.produced, r))
    && (forall r, i | 0 <= r < |p.queues| && 0 <= i < |p.queues[r]| :: p.queues[r][i].relay == r)
  }

  lemma ViaOneMore<T>(items: seq<Item<T>>, x: Item<T>, r: nat)
    ensures Via(items + [x], r) == if x.relay == r then Via(items, r) + [x] else Via(items, r)
  {
    assert (items + [x])[..|items + [x]| - 1] == items;
  }

  lemma {:induction false} ViaAppend<T>(a: seq<Item<T>>, b: seq<Item<T>>, r: nat)
    ensures Via(a + b, r) == Via(a, r) + Via(b, r)
    decreases |b|
  {
    if b == [] {
      assert a + b == a;
    } else {
      var front, last := b[..|b| - 1], b[|b| - 1];
      assert a + b == (a + front) + [last];
      ViaOneMore(a + front, last, r);
      ViaAppend(a, front, r);
    }
  }

  lemma OpenRelayConserves<T>(p: Pipes<T>)
    requires Conserved(p)
    ensures Conserved(OpenRelay(p))
  {
    forall r: nat ensures Waiting(OpenRelay(p), r) == Waiting(p, r) {
    }
  }

  lemma PutConserves<T>(p: Pipes<T>, item: Item<T>)
    requires item.relay < |p.queues| && Conserved(p)
    ensures Conserved(Put(p, item))
  {
    var q := Put(p, item);
    forall r: nat ensures Via(q.taken + q.shared, r) + Waiting(q, r) == Via(q.produced, r) {
      ViaOneMore(p.produced, item, r);
      assert Via(p.taken + p.shared, r) + Waiting(p, r) == Via(p.produced, r);
    }
  }

  lemma MoveConserves<T>(p: Pipes<T>, r: nat)
    requires r < |p.queues| && p.queues[r] != [] && Conserved(p)
    ensures Conserved(Move(p, r))
  {
    var q := Move(p, r);
    var x := p.queues[r][0];
    forall s: nat ensures Via(q.taken + q.shared, s) + Waiting(q, s) == Via(q.produced, s) {
      assert q.taken + q.shared == p.taken + p.shared + [x];
      ViaOneMore(p.taken + p.shared, x, s);
      assert Via(p.taken + p.shared, s) + Waiting(p, s) == Via(p.produced, s);
      assert p.queues[r] == [x] + p.queues[r][1..];
    }
  }

  lemma TakeOneConserves<T>(p: Pipes<T>)
    requires p.shared != [] && Conserved(p)
    ensures Conserved(TakeOne(p))
  {
    var q := TakeOne(p);
    assert q.taken + q.shared == p.taken + p.shared;
    forall r: nat ensures Waiting(q, r) == Waiting(p, r) {
    }
  }

  /** What was taken from a relay is the beginning of what was put into it: nothing lost, swapped or doubled. */
  lemma TakenIsPrefix<T>(p: Pipes<T>, r: nat)
    requires Conserved(p)
    ensures Via(p.taken, r) <= Via(p.produced, r)
  {
    ViaAppend(p.taken, p.shared, r);
    assert Via(p.taken + p.shared, r) + Waiting(p, r) == Via(p.produced, r);
  }

  lemma {:induction false} ViaContains<T>(items: seq<Item<T>>, x: Item<T>)
    ensures x in items <==> x in Via(items, x.relay)
    ensures forall y, r | y in Via(items, r) :: y in items
    decreases |items|
  {
    if items != [] {
      var front := items[..|items| - 1];
      ViaContains(front, x);
      assert items == front + [items[|items| - 1]];
    }
  }

  lemma TakenWasProduced<T>(p: Pipes<T>, x: Item<T>)
    requires Conserved(p) && x in p.taken
    ensures x in p.produced
  {
    TakenIsPrefix(p, x.relay);
    ViaContains(p.taken, x);
    ViaContains(p.produced, x);
  }
}
