/** The doubly linked request queue of both Exec devices
    (amiga/common/fujinet_io_queue.c): its heap shape refines a sequence of
    entries, on which order and conservation are proved for whole runs. */
module IoQueue {
  import opened Bytes

  /** What a node carries; a request is named by a number. */
  datatype Entry = Entry(request: nat, unit: byte, command: u16)

  /** The dispatch rule: a stopped unit lets only START and FLUSH through. */
  datatype Rule = Rule(stopped: seq<bool>, start: u16, flush: u16) {
    predicate Runnable(e: Entry) {
      e.unit < |stopped| && (!stopped[e.unit] || e.command == start || e.command == flush)
    }
  }

  /** A request of no unit, or of a stopped one that is neither START nor FLUSH. */
  predicate HeldBack(rule: Rule, e: Entry) {
    e.unit < |rule.stopped| ==> rule.stopped[e.unit] && e.command != rule.start && e.command != rule.flush
  }

  /** The three searches of the queue: for dispatch, for a given request, for any
      request of a unit. */
  datatype Search = Dispatch(rule: Rule) | ByRequest(request: nat) | ByUnit(unit: byte) {
    predicate Matches(e: Entry) {
      match this
      case Dispatch(rule) => rule.Runnable(e)
      case ByRequest(request) => e.request == request
      case ByUnit(unit) => e.unit == unit
    }
  }

  /** Position of the first match, or the length if there is none. */
  function Find(q: seq<Entry>, search: Search): (k: nat)
    ensures k <= |q| && (k < |q| ==> search.Matches(q[k]))
    ensures forall i :: 0 <= i < k ==> !search.Matches(q[i])
  {
    if q == [] || search.Matches(q[0]) then 0 else 1 + Find(q[1..], search)
  }

  /** The queue after the first match has been taken out. */
  function Without(q: seq<Entry>, search: Search): seq<Entry> { Drop(q, Find(q, search)) }

  /** The entry a search takes, if any. */
  function Hit(q: seq<Entry>, search: Search): seq<Entry> {
    if Find(q, search) < |q| then [q[Find(q, search)]] else []
  }

  /** The sequence without its k-th element, if it has one. */
  function Drop<T>(s: seq<T>, k: nat): seq<T> { if k < |s| then RemoveAt(s, k) else s }

  function RemoveAt<T>(s: seq<T>, k: nat): (r: seq<T>)
    requires k < |s|
    ensures |r| == |s| - 1
  {
    s[..k] + s[k + 1..]
  }

  class Node {
    var next: Node?
    var previous: Node?
    var request: nat
    var unit: byte
    var command: u16

    constructor ()
      ensures next == null && previous == null
    {
      next, previous, request, unit, command := null, null, 0, 0, 0;
    }

    function Value(): Entry
      reads `request, `unit, `command
    {
      Entry(request, unit, command)
    }
  }

  class Queue {
    var head: Node?
    var tail: Node?
    /** The nodes from head to tail. */
    ghost var nodes: seq<Node>
    /** Every node that has been in the queue. */
    ghost var footprint: set<Node>

    ghost predicate Valid()
      reads this, footprint
    {
      && (forall i :: 0 <= i < |nodes| ==> nodes[i] in footprint)
      && (forall i, j :: 0 <= i < j < |nodes| ==> nodes[i] != nodes[j])
      && head == (if nodes == [] then null else nodes[0])
      && tail == (if nodes == [] then null else nodes[|nodes| - 1])
      && (forall i {:trigger nodes[i].next} :: 0 <= i < |nodes| ==>
            nodes[i].next == if i + 1 < |nodes| then nodes[i + 1] else null)
      && (forall i {:trigger nodes[i].previous} :: 0 <= i < |nodes| ==>
            nodes[i].previous == if i > 0 then nodes[i - 1] else null)
    }

    ghost function Contents(): (q: seq<Entry>)
      requires Valid()
      reads this, footprint
      ensures |q| == |nodes|
    {
      seq(|nodes|, i requires 0 <= i < |nodes| && Valid() reads this, footprint => nodes[i].Value())
    }

    constructor ()
      ensures Valid() && footprint == {} && nodes == [] && Contents() == []
    {
      head, tail, nodes, footprint := null, null, [], {};
    }

    /** Unlinks the k-th node in constant time. */
    method Detach(node: Node, ghost k: nat)
      requires Valid() && k < |nodes| && nodes[k] == node
      modifies `head, `tail, `nodes, footprint`next, footprint`previous
      ensures Valid() && nodes == RemoveAt(old(nodes), k)
      ensures Contents() == RemoveAt(old(Contents()), k)
      ensures node.next == null && node.previous == null
    {
      assert node.previous == if k > 0 then nodes[k - 1] else null;
      assert node.next == if k + 1 < |nodes| then nodes[k + 1] else null;
      if node.previous != null { node.previous.next := node.next; } else { head := node.next; }
      if node.next != null { node.next.previous := node.previous; } else { tail := node.previous; }
      node.next, node.previous := null, null;
      nodes := RemoveAt(nodes, k);
      assert forall i :: 0 <= i < |nodes| ==> nodes[i] == if i < k then old(nodes[i]) else old(nodes[i + 1]);
      SameValues(k);
    }

    twostate lemma SameValues(k: nat)
      requires k < |old(nodes)| && nodes == RemoveAt(old(nodes), k)
      requires old(Valid()) && Valid()
      requires forall i :: 0 <= i < |old(nodes)| ==> old(nodes)[i].Value() == old(nodes[i].Value())
      ensures Contents() == RemoveAt(old(Contents()), k)
    {
    }

    method Append(node: Node, request: nat, unit: byte, command: u16)
      requires Valid() && node !in nodes
      modifies `head, `tail, `nodes, `footprint, node, footprint`next
      ensures Valid() && footprint == old(footprint) + {node} && nodes == old(nodes) + [node]
      ensures Contents() == old(Contents()) + [Entry(request, unit, command)]
    {
      node.next := null;
      node.previous := tail;
      node.request, node.unit, node.command := request, unit, command;
      if tail != null { tail.next := node; } else { head := node; }
      tail := node;
      nodes, footprint := nodes + [node], footprint + {node};
    }

    /** Takes the first runnable node and leaves the others in order. */
    method Next(rule: Rule) returns (node: Node?)
      requires Valid()
      modifies `head, `tail, `nodes, footprint`next, footprint`previous
      ensures Valid() && Contents() == Without(old(Contents()), Dispatch(rule))
      ensures nodes == Drop(old(nodes), Find(old(Contents()), Dispatch(rule)))
      // A stopped unit lets only START and FLUSH through, and nothing else is held back.
      ensures node != null ==> node.unit < |rule.stopped|
      ensures node != null && rule.stopped[node.unit] ==> node.command == rule.start || node.command == rule.flush
      ensures forall i :: 0 <= i < Find(old(Contents()), Dispatch(rule)) ==> HeldBack(rule, old(Contents())[i])
      ensures var k := Find(old(Contents()), Dispatch(rule));
        if k < |old(nodes)| then node == old(nodes)[k] && node.Value() == old(Contents())[k] else node == null
      ensures node != null ==> node.next == null && node.previous == null
    {
      ghost var q, k := Contents(), 0;
      node := head;
      while node != null
        invariant k <= |nodes| && node == (if k < |nodes| then nodes[k] else null)
        invariant forall i :: 0 <= i < k ==> !Dispatch(rule).Matches(q[i]) && HeldBack(rule, q[i])
        decreases |nodes| - k
      {
        if node.unit < |rule.stopped|
          && (!rule.stopped[node.unit] || node.command == rule.start || node.command == rule.flush)
        {
          assert Dispatch(rule).Matches(q[k]) && k == Find(q, Dispatch(rule));
          Detach(node, k);
          return;
        }
        node := node.next;
        k := k + 1;
      }
      assert k == Find(q, Dispatch(rule)) == |q|;
    }

    /** Takes the node of one request. */
    method RemoveRequest(request: nat) returns (node: Node?)
      requires Valid()
      modifies `head, `tail, `nodes, footprint`next, footprint`previous
      ensures Valid() && Contents() == Without(old(Contents()), ByRequest(request))
      ensures nodes == Drop(old(nodes), Find(old(Contents()), ByRequest(request)))
      ensures var k := Find(old(Contents()), ByRequest(request));
        if k < |old(nodes)| then node == old(nodes)[k] && node.Value() == old(Contents())[k] else node == null
      ensures node != null ==> node.next == null && node.previous == null
    {
      ghost var q, k := Contents(), 0;
      node := head;
      while node != null
        invariant k <= |nodes| && node == (if k < |nodes| then nodes[k] else null)
        invariant forall i :: 0 <= i < k ==> !ByRequest(request).Matches(q[i])
        decreases |nodes| - k
      {
        if node.request == request {
          assert ByRequest(request).Matches(q[k]) && k == Find(q, ByRequest(request));
          Detach(node, k);
          return;
        }
        node := node.next;
        k := k + 1;
      }
      assert k == Find(q, ByRequest(request)) == |q|;
    }

    /** Takes the first node of a unit. */
    method TakeUnit(unit: byte) returns (node: Node?)
      requires Valid()
      modifies `head, `tail, `nodes, footprint`next, footprint`previous
      ensures Valid() && Contents() == Without(old(Contents()), ByUnit(unit))
      ensures nodes == Drop(old(nodes), Find(old(Contents()), ByUnit(unit)))
      ensures var k := Find(old(Contents()), ByUnit(unit));
        if k < |old(nodes)| then node == old(nodes)[k] && node.Value() == old(Contents())[k] else node == null
      ensures node != null ==> node.next == null && node.previous == null
    {
      ghost var q, k := Contents(), 0;
      node := head;
      while node != null
        invariant k <= |nodes| && node == (if k < |nodes| then nodes[k] else null)
        invariant forall i :: 0 <= i < k ==> !ByUnit(unit).Matches(q[i])
        decreases |nodes| - k
      {
        if node.unit == unit {
          assert ByUnit(unit).Matches(q[k]) && k == Find(q, ByUnit(unit));
          Detach(node, k);
          return;
        }
        node := node.next;
        k := k + 1;
      }
      assert k == Find(q, ByUnit(unit)) == |q|;
    }
  }

  // ------------------------------------------------------------ whole runs

  datatype Op = Append(entry: Entry) | Take(search: Search)

  /** What is left in the queue after a run, and what the run took, in order. */
  function Left(q: seq<Entry>, ops: seq<Op>): seq<Entry> {
    if ops == [] then q
    else
      var p := Left(q, ops[..|ops| - 1]);
      match ops[|ops| - 1]
      case Append(e) => p + [e]
      case Take(search) => Without(p, search)
  }

  function Taken(q: seq<Entry>, ops: seq<Op>): seq<Entry> {
    if ops == [] then []
    else
      var n := |ops| - 1;
      Taken(q, ops[..n]) + if ops[n].Take? then Hit(Left(q, ops[..n]), ops[n].search) else []
  }

  function Appended(ops: seq<Op>): seq<Entry> {
    if ops == [] then []
    else Appended(ops[..|ops| - 1]) + (if ops[|ops| - 1].Append? then [ops[|ops| - 1].entry] else [])
  }

  function OfUnit(s: seq<Entry>, unit: byte): seq<Entry> {
    if s == [] then []
    else OfUnit(s[..|s| - 1], unit) + (if s[|s| - 1].unit == unit then [s[|s| - 1]] else [])
  }

  lemma HitAndRest(q: seq<Entry>, search: Search)
    ensures multiset(Hit(q, search)) + multiset(Without(q, search)) == multiset(q)
  {
    var k := Find(q, search);
    if k < |q| { assert q == q[..k] + [q[k]] + q[k + 1..]; }
  }

  /** One more operation: p is the queue before it, `hit` what it takes, `come`
      what it adds. */
  lemma Unfold(q: seq<Entry>, ops: seq<Op>) returns (p: seq<Entry>, hit: seq<Entry>, come: seq<Entry>)
    requires ops != []
    ensures p == Left(q, ops[..|ops| - 1])
    ensures Taken(q, ops) == Taken(q, ops[..|ops| - 1]) + hit
    ensures Appended(ops) == Appended(ops[..|ops| - 1]) + come
    ensures match ops[|ops| - 1]
      case Append(e) => hit == [] && come == [e] && Left(q, ops) == p + come
      case Take(search) => hit == Hit(p, search) && come == [] && Left(q, ops) == Without(p, search)
  {
    p := Left(q, ops[..|ops| - 1]);
    match ops[|ops| - 1] {
      case Append(e) => hit, come := [], [e];
      case Take(search) => hit, come := Hit(p, search), [];
    }
  }

  /** Nothing is lost or duplicated, whatever is appended, dispatched, aborted or
      flushed. */
  lemma {:induction false} Conservation(q: seq<Entry>, ops: seq<Op>)
    ensures multiset(Taken(q, ops)) + multiset(Left(q, ops)) == multiset(q) + multiset(Appended(ops))
  {
    if ops != [] {
      var n := |ops| - 1;
      Conservation(q, ops[..n]);
      var p, hit, come := Unfold(q, ops);
      if ops[n].Take? { HitAndRest(p, ops[n].search); }
      Balance(Taken(q, ops[..n]), hit, p, come, Left(q, ops), q, Appended(ops[..n]));
    }
  }

  lemma Balance(out: seq<Entry>, hit: seq<Entry>, p: seq<Entry>, come: seq<Entry>, left: seq<Entry>,
                q: seq<Entry>, app: seq<Entry>)
    requires multiset(out) + multiset(p) == multiset(q) + multiset(app)
    requires multiset(hit) + multiset(left) == multiset(p) + multiset(come)
    ensures multiset(out + hit) + multiset(left) == multiset(q) + multiset(app + come)
  {
    calc {
      multiset(out + hit) + multiset(left);
      multiset(out) + (multiset(hit) + multiset(left));
      multiset(out) + multiset(p) + multiset(come);
      multiset(q) + multiset(app + come);
    }
  }

  lemma {:induction false} OfUnitConcat(a: seq<Entry>, b: seq<Entry>, unit: byte)
    ensures OfUnit(a + b, unit) == OfUnit(a, unit) + OfUnit(b, unit)
  {
    if b == [] {
      assert a + b == a;
    } else {
      assert (a + b)[..|a + b| - 1] == a + b[..|b| - 1];
      OfUnitConcat(a, b[..|b| - 1], unit);
    }
  }

  lemma {:induction false} OfUnitNone(s: seq<Entry>, unit: byte)
    requires forall i :: 0 <= i < |s| ==> s[i].unit != unit
    ensures OfUnit(s, unit) == []
  {
    if s != [] { OfUnitNone(s[..|s| - 1], unit); }
  }

  /** Dispatch takes a running unit's oldest entry, if it takes that unit at all. */
  lemma DispatchTakesOldest(q: seq<Entry>, rule: Rule, unit: byte)
    requires unit < |rule.stopped| && !rule.stopped[unit]
    ensures OfUnit(q, unit) == OfUnit(Hit(q, Dispatch(rule)), unit) + OfUnit(Without(q, Dispatch(rule)), unit)
  {
    var k := Find(q, Dispatch(rule));
    if k < |q| {
      forall i | 0 <= i < k ensures q[..k][i].unit != unit {
        assert !Dispatch(rule).Matches(q[i]);
      }
      TakeOldest(q, k, unit);
    }
  }

  lemma TakeOldest(q: seq<Entry>, k: nat, unit: byte)
    requires k < |q| && forall i :: 0 <= i < k ==> q[..k][i].unit != unit
    ensures OfUnit(q, unit) == OfUnit([q[k]], unit) + OfUnit(RemoveAt(q, k), unit)
  {
    OfUnitNone(q[..k], unit);
    OfUnitConcat(q[..k], q[k + 1..], unit);
    OfUnitConcat([q[k]], q[k + 1..], unit);
    assert q == q[..k] + ([q[k]] + q[k + 1..]);
    OfUnitConcat(q[..k], [q[k]] + q[k + 1..], unit);
  }

  /** What the dispatches of a run took, in order; removals by request or unit aside. */
  function Dispatched(q: seq<Entry>, ops: seq<Op>): seq<Entry> {
    if ops == [] then []
    else
      var n := |ops| - 1;
      Dispatched(q, ops[..n])
      + if ops[n].Take? && ops[n].search.Dispatch? then Hit(Left(q, ops[..n]), ops[n].search) else []
  }

  /** Every dispatch of the run finds the unit running. */
  ghost predicate AlwaysRunning(ops: seq<Op>, unit: byte) {
    forall i :: 0 <= i < |ops| && ops[i].Take? && ops[i].search.Dispatch? ==>
      unit < |ops[i].search.rule.stopped| && !ops[i].search.rule.stopped[unit]
  }

  /** a is b with some entries left out. */
  predicate Within(a: seq<Entry>, b: seq<Entry>)
    decreases |b|
  {
    if a == [] then true
    else if b == [] then false
    else (a[|a| - 1] == b[|b| - 1] && Within(a[..|a| - 1], b[..|b| - 1])) || Within(a, b[..|b| - 1])
  }

  lemma {:induction false} WithinSelf(a: seq<Entry>)
    ensures Within(a, a)
  {
    if a != [] { WithinSelf(a[..|a| - 1]); }
  }

  lemma {:induction false} WithinTransitive(a: seq<Entry>, b: seq<Entry>, c: seq<Entry>)
    requires Within(a, b) && Within(b, c)
    ensures Within(a, c)
    decreases |c|
  {
    if a != [] {
      var a', b', c' := a[..|a| - 1], b[..|b| - 1], c[..|c| - 1];
      if Within(b, c') {
        WithinTransitive(a, b, c');
      } else if Within(a, b') {
        WithinTransitive(a, b', c');
      } else {
        WithinTransitive(a', b', c');
      }
    }
  }

  lemma {:induction false} WithinExtended(a: seq<Entry>, b: seq<Entry>, c: seq<Entry>)
    requires Within(a, b)
    ensures Within(a + c, b + c)
  {
    if c == [] {
      assert a + c == a && b + c == b;
    } else {
      var n := |c| - 1;
      WithinExtended(a, b, c[..n]);
      assert (a + c)[..|a + c| - 1] == a + c[..n] && (b + c)[..|b + c| - 1] == b + c[..n];
    }
  }

  // One operation more, in terms of one unit: `out` is what has been dispatched, p what
  // waits, `came` what has come in.

  lemma WithinArrival(out: seq<Entry>, p: seq<Entry>, c: seq<Entry>, came: seq<Entry>)
    requires Within(out + p, came)
    ensures Within(out + (p + c), came + c)
  {
    WithinExtended(out + p, came, c);
    assert out + (p + c) == (out + p) + c;
  }

  lemma WithinDispatch(out: seq<Entry>, hit: seq<Entry>, left: seq<Entry>, came: seq<Entry>)
    requires Within(out + (hit + left), came)
    ensures Within((out + hit) + left, came)
  {
    assert (out + hit) + left == out + (hit + left);
  }

  lemma WithinRemoval(out: seq<Entry>, a: seq<Entry>, gap: seq<Entry>, b: seq<Entry>, came: seq<Entry>)
    requires |gap| <= 1 && Within(out + (a + gap + b), came)
    ensures Within(out + (a + b), came)
  {
    WithinGap(out + a, gap, b);
    assert out + (a + gap + b) == out + a + gap + b && out + (a + b) == out + a + b;
    WithinTransitive(out + a + b, out + a + gap + b, came);
  }

  /** One entry taken out of the middle. */
  lemma WithinGap(a: seq<Entry>, gap: seq<Entry>, b: seq<Entry>)
    requires |gap| <= 1
    ensures Within(a + b, a + gap + b)
  {
    WithinSelf(a);
    if gap != [] { assert (a + gap)[..|a + gap| - 1] == a; } else { assert a + gap == a; }
    assert Within(a, a + gap);
    WithinExtended(a, a + gap, b);
  }

  /** What a removal takes of a unit: at most one entry. */
  lemma UnitWithout(q: seq<Entry>, search: Search, unit: byte) returns (a: seq<Entry>, gap: seq<Entry>, b: seq<Entry>)
    ensures |gap| <= 1 && OfUnit(q, unit) == a + gap + b && OfUnit(Without(q, search), unit) == a + b
  {
    var k := Find(q, search);
    if k < |q| {
      a, gap, b := OfUnit(q[..k], unit), OfUnit([q[k]], unit), OfUnit(q[k + 1..], unit);
      OfUnitConcat(q[..k], q[k + 1..], unit);
      OfUnitConcat(q[..k], [q[k]], unit);
      OfUnitConcat(q[..k] + [q[k]], q[k + 1..], unit);
      assert q == q[..k] + [q[k]] + q[k + 1..];
    } else {
      a, gap, b := OfUnit(q, unit), [], [];
      assert a + gap + b == a + b == a;
    }
  }

  /** While a unit is running, its requests are dispatched in the order they came in,
      those still waiting come after them, and removals only leave gaps. */
  lemma {:induction false} RunningUnitIsFifo(q: seq<Entry>, ops: seq<Op>, unit: byte)
    requires AlwaysRunning(ops, unit)
    ensures Within(OfUnit(Dispatched(q, ops), unit) + OfUnit(Left(q, ops), unit), Came(q, ops, unit))
  {
    if ops == [] {
      WithinSelf(OfUnit(q, unit));
      assert Came(q, ops, unit) == OfUnit(q, unit);
      assert [] + OfUnit(q, unit) == OfUnit(q, unit);
    } else {
      RunningUnitIsFifo(q, ops[..|ops| - 1], unit);
      match ops[|ops| - 1] {
        case Append(e) => ArrivalStep(q, ops, unit, e);
        case Take(search) => TakeStep(q, ops, unit, search);
      }
    }
  }

  /** What there was of the unit and what has come in. */
  function Came(q: seq<Entry>, ops: seq<Op>, unit: byte): seq<Entry> { OfUnit(q, unit) + OfUnit(Appended(ops), unit) }

  lemma ArrivalStep(q: seq<Entry>, ops: seq<Op>, unit: byte, e: Entry)
    requires ops != [] && ops[|ops| - 1] == Append(e)
    requires var pre := ops[..|ops| - 1];
      Within(OfUnit(Dispatched(q, pre), unit) + OfUnit(Left(q, pre), unit), Came(q, pre, unit))
    ensures Within(OfUnit(Dispatched(q, ops), unit) + OfUnit(Left(q, ops), unit), Came(q, ops, unit))
  {
    var pre := ops[..|ops| - 1];
    var out, p, c := Dispatched(q, pre), Left(q, pre), OfUnit([e], unit);
    WithinArrival(OfUnit(out, unit), OfUnit(p, unit), c, Came(q, pre, unit));
    assert Dispatched(q, ops) == out && Left(q, ops) == p + [e];
    OfUnitConcat(p, [e], unit);
    CameMore(q, ops, unit, e);
  }

  lemma CameMore(q: seq<Entry>, ops: seq<Op>, unit: byte, e: Entry)
    requires ops != [] && ops[|ops| - 1] == Append(e)
    ensures Came(q, ops, unit) == Came(q, ops[..|ops| - 1], unit) + OfUnit([e], unit)
  {
    var pre := ops[..|ops| - 1];
    assert Appended(ops) == Appended(pre) + [e];
    OfUnitConcat(Appended(pre), [e], unit);
  }

  lemma TakeStep(q: seq<Entry>, ops: seq<Op>, unit: byte, search: Search)
    requires ops != [] && ops[|ops| - 1] == Take(search) && AlwaysRunning(ops, unit)
    requires var pre := ops[..|ops| - 1];
      Within(OfUnit(Dispatched(q, pre), unit) + OfUnit(Left(q, pre), unit), Came(q, pre, unit))
    ensures Within(OfUnit(Dispatched(q, ops), unit) + OfUnit(Left(q, ops), unit), Came(q, ops, unit))
  {
    var pre, p := ops[..|ops| - 1], Left(q, ops[..|ops| - 1]);
    var out := OfUnit(Dispatched(q, pre), unit);
    assert Appended(ops) == Appended(pre);
    if search.Dispatch? {
      DispatchTakesOldest(p, search.rule, unit);
      OfUnitConcat(Dispatched(q, pre), Hit(p, search), unit);
      WithinDispatch(out, OfUnit(Hit(p, search), unit), OfUnit(Without(p, search), unit), Came(q, pre, unit));
    } else {
      assert Dispatched(q, ops) == Dispatched(q, pre);
      var a, gap, b := UnitWithout(p, search, unit);
      WithinRemoval(out, a, gap, b, Came(q, pre, unit));
    }
  }
}
