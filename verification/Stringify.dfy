/** Cycle-safe printing of an arbitrary object graph: JSON.stringify with a replacer that keeps
    one `seen` set and answers "[Circular]" for every object it meets again.

    The result is the JSON tree that gets printed.  Escaping and spacing of the text are left to
    JSON.stringify. */
module Stringify {
  import opened Text

  type Id = nat

  /** A JavaScript value: a primitive, or a reference to an object of the heap. */
  datatype Value =
    | Null
    | Bool(b: bool)
    | Num(n: int)
    | Str(s: string)
    | Skipped          // undefined, a function or a symbol: printed by no serialiser
    | BigInt(i: int)   // makes JSON.stringify throw
    | Ref(id: Id)

  datatype Slot = Slot(key: string, value: Value)

  /** An array or a plain object; the slots of an array carry their index as key. */
  datatype Node = Node(isArray: bool, slots: seq<Slot>)

  type Heap = map<Id, Node>

  datatype Json =
    | JNull
    | JBool(b: bool)
    | JNum(n: int)
    | JStr(s: string)
    | JNode(isArray: bool, members: seq<Member>)

  datatype Member = Member(key: string, json: Json)

  /** What JSON.stringify makes of one value: a tree, nothing at all, or an exception. */
  datatype Printed = Tree(json: Json) | Nothing | Throws

  const CIRCULAR := JStr("[Circular]")

  ghost predicate Closed(heap: Heap) {
    forall id, i :: id in heap && 0 <= i < |heap[id].slots| && heap[id].slots[i].value.Ref? ==>
      heap[id].slots[i].value.id in heap
  }

  ghost predicate InHeap(heap: Heap, v: Value) {
    v.Ref? ==> v.id in heap
  }

  ghost predicate SlotsInHeap(heap: Heap, slots: seq<Slot>) {
    forall i :: 0 <= i < |slots| ==> InHeap(heap, slots[i].value)
  }

  function Leaf(v: Value): Printed
    requires !v.Ref?
  {
    match v
    case Null => Tree(JNull)
    case Bool(b) => Tree(JBool(b))
    case Num(n) => Tree(JNum(n))
    case Str(s) => Tree(JStr(s))
    case Skipped => Nothing
    case BigInt(_) => Throws
  }

  /** An unprintable slot is dropped from an object and becomes null in an array. */
  function AddMember(isArray: bool, key: string, p: Printed, rest: seq<Member>): seq<Member> {
    match p
    case Tree(j) => [Member(key, j)] + rest
    case Nothing => if isArray then [Member(key, JNull)] + rest else rest
    case Throws => rest
  }

  // --------------------------------------------------------------------- the guarded traversal

  /** `trace` lists the objects expanded, in order; `hits` the references answered "[Circular]". */
  datatype Visit = Visit(out: Printed, seen: set<Id>, trace: seq<Id>, hits: seq<Id>)
  datatype SlotsVisit = SlotsVisit(ok: bool, members: seq<Member>, seen: set<Id>, trace: seq<Id>, hits: seq<Id>)

  ghost function VisitValue(heap: Heap, v: Value, seen: set<Id>): (r: Visit)
    requires Closed(heap) && InHeap(heap, v)
    ensures seen <= r.seen
    decreases |heap.Keys - seen|, 1, 0
  {
    if !v.Ref? then Visit(Leaf(v), seen, [], [])
    else if v.id in seen then Visit(Tree(CIRCULAR), seen, [], [v.id])
    else
      var node := heap[v.id];
      assert heap.Keys - (seen + {v.id}) < heap.Keys - seen;
      SmallerSet(heap.Keys - (seen + {v.id}), heap.Keys - seen);
      var r := VisitSlots(heap, node.isArray, node.slots, seen + {v.id});
      Visit(if r.ok then Tree(JNode(node.isArray, r.members)) else Throws, r.seen, [v.id] + r.trace, r.hits)
  }

  ghost function VisitSlots(heap: Heap, isArray: bool, slots: seq<Slot>, seen: set<Id>): (r: SlotsVisit)
    requires Closed(heap) && SlotsInHeap(heap, slots)
    ensures seen <= r.seen
    decreases |heap.Keys - seen|, 2, |slots|
  {
    if slots == [] then SlotsVisit(true, [], seen, [], [])
    else
      var first := VisitValue(heap, slots[0].value, seen);
      if first.out.Throws? then SlotsVisit(false, [], first.seen, first.trace, first.hits)
      else
        SmallerSet(heap.Keys - first.seen, heap.Keys - seen);
        var rest := VisitSlots(heap, isArray, slots[1..], first.seen);
        SlotsVisit(rest.ok, AddMember(isArray, slots[0].key, first.out, rest.members),
                   rest.seen, first.trace + rest.trace, first.hits + rest.hits)
  }

  lemma SmallerSet(a: set<Id>, b: set<Id>)
    requires a <= b
    ensures |a| <= |b|
    ensures a != b ==> |a| < |b|
  {
    assert b == a + (b - a);
    if a != b { var x :| x in b - a; }
  }

  // --------------------------------------------------------------------------- reachability

  function RefsOf(slots: seq<Slot>): seq<Id> {
    if slots == [] then []
    else (if slots[0].value.Ref? then [slots[0].value.id] else []) + RefsOf(slots[1..])
  }

  /** A walk along references, from the first id to the last. */
  ghost predicate IsPath(heap: Heap, path: seq<Id>) {
    && path != []
    && path[0] in heap
    && (|path| > 1 ==> path[1] in RefsOf(heap[path[0]].slots) && IsPath(heap, path[1..]))
  }

  ghost predicate Reaches(heap: Heap, from: Id, to: Id) {
    exists path :: IsPath(heap, path) && path[0] == from && path[|path| - 1] == to
  }

  ghost predicate ReachableFrom(heap: Heap, v: Value, id: Id) {
    v.Ref? && Reaches(heap, v.id, id)
  }

  lemma ReachesSelf(heap: Heap, id: Id)
    requires id in heap
    ensures Reaches(heap, id, id)
  {
    assert IsPath(heap, [id]);
  }

  lemma ReachesThrough(heap: Heap, from: Id, child: Id, to: Id)
    requires from in heap && child in RefsOf(heap[from].slots) && Reaches(heap, child, to)
    ensures Reaches(heap, from, to)
  {
    var path :| IsPath(heap, path) && path[0] == child && path[|path| - 1] == to;
    assert ([from] + path)[1..] == path;
    assert IsPath(heap, [from] + path);
  }

  /** A set of objects that keeps every reference of its members catches every walk. */
  lemma {:induction false} ClosedSetCatchesPath(heap: Heap, s: set<Id>, path: seq<Id>)
    requires IsPath(heap, path) && path[0] in s
    requires forall id, r :: id in s && id in heap && r in RefsOf(heap[id].slots) ==> r in s
    ensures path[|path| - 1] in s
  {
    if |path| == 1 {
    } else {
      ClosedSetCatchesPath(heap, s, path[1..]);
    }
  }

  // --------------------------------------------------------------------- what a visit expands

  ghost predicate NoDuplicates(ids: seq<Id>) {
    forall i, j :: 0 <= i < j < |ids| ==> ids[i] != ids[j]
  }

  ghost predicate FreshTrace(before: set<Id>, after: set<Id>, trace: seq<Id>) {
    && NoDuplicates(trace)
    && (forall id :: id in trace ==> id !in before)
    && (forall id :: id in after <==> id in before || id in trace)
  }

  lemma FreshTraceJoins(a: set<Id>, b: set<Id>, c: set<Id>, t1: seq<Id>, t2: seq<Id>)
    requires FreshTrace(a, b, t1) && FreshTrace(b, c, t2)
    ensures FreshTrace(a, c, t1 + t2)
  {
    var t := t1 + t2;
    forall i, j | 0 <= i < j < |t| ensures t[i] != t[j] {
      if i < |t1| <= j { assert t1[i] in b && t2[j - |t1|] !in b; }
    }
    assert forall id :: id in t <==> id in t1 || id in t2;
  }

  lemma {:induction false} VisitValueIsFresh(heap: Heap, v: Value, seen: set<Id>)
    requires Closed(heap) && InHeap(heap, v)
    ensures var r := VisitValue(heap, v, seen); FreshTrace(seen, r.seen, r.trace)
    decreases |heap.Keys - seen|, 1, 0
  {
    if !v.Ref? || v.id in seen {
    } else {
      assert heap.Keys - (seen + {v.id}) < heap.Keys - seen;
      SmallerSet(heap.Keys - (seen + {v.id}), heap.Keys - seen);
      var node := heap[v.id];
      VisitSlotsIsFresh(heap, node.isArray, node.slots, seen + {v.id});
      var r := VisitSlots(heap, node.isArray, node.slots, seen + {v.id});
      FreshTraceJoins(seen, seen + {v.id}, r.seen, [v.id], r.trace);
    }
  }

  lemma {:induction false} VisitSlotsIsFresh(heap: Heap, isArray: bool, slots: seq<Slot>, seen: set<Id>)
    requires Closed(heap) && SlotsInHeap(heap, slots)
    ensures var r := VisitSlots(heap, isArray, slots, seen); FreshTrace(seen, r.seen, r.trace)
    decreases |heap.Keys - seen|, 2, |slots|
  {
    if slots == [] {
    } else {
      VisitValueIsFresh(heap, slots[0].value, seen);
      var first := VisitValue(heap, slots[0].value, seen);
      if !first.out.Throws? {
        SmallerSet(heap.Keys - first.seen, heap.Keys - seen);
        VisitSlotsIsFresh(heap, isArray, slots[1..], first.seen);
        var rest := VisitSlots(heap, isArray, slots[1..], first.seen);
        FreshTraceJoins(seen, first.seen, rest.seen, first.trace, rest.trace);
      }
    }
  }

  predicate HasBigInt(slots: seq<Slot>) {
    exists i :: 0 <= i < |slots| && slots[i].value.BigInt?
  }

  lemma SplitSlots(slots: seq<Slot>)
    requires slots != []
    ensures HasBigInt(slots) <==> slots[0].value.BigInt? || HasBigInt(slots[1..])
    ensures forall r :: r in RefsOf(slots) <==> slots[0].value == Ref(r) || r in RefsOf(slots[1..])
  {
    assert slots == [slots[0]] + slots[1..];
  }

  /** The object was fully processed: all its references are known, and none of its slots throws. */
  ghost predicate Processed(heap: Heap, slots: seq<Slot>, seen: set<Id>) {
    (forall r :: r in RefsOf(slots) ==> r in seen) && !HasBigInt(slots)
  }

  ghost predicate AllProcessed(heap: Heap, trace: seq<Id>, seen: set<Id>) {
    forall id :: id in trace ==> id in heap && Processed(heap, heap[id].slots, seen)
  }

  lemma {:induction false} VisitValueProcesses(heap: Heap, v: Value, seen: set<Id>)
    requires Closed(heap) && InHeap(heap, v)
    requires !VisitValue(heap, v, seen).out.Throws?
    ensures var r := VisitValue(heap, v, seen);
      AllProcessed(heap, r.trace, r.seen) && !v.BigInt? && (v.Ref? ==> v.id in r.seen)
    decreases |heap.Keys - seen|, 1, 0
  {
    if !v.Ref? || v.id in seen {
    } else {
      assert heap.Keys - (seen + {v.id}) < heap.Keys - seen;
      SmallerSet(heap.Keys - (seen + {v.id}), heap.Keys - seen);
      VisitSlotsProcesses(heap, heap[v.id].isArray, heap[v.id].slots, seen + {v.id});
    }
  }

  lemma {:induction false} VisitSlotsProcesses(heap: Heap, isArray: bool, slots: seq<Slot>, seen: set<Id>)
    requires Closed(heap) && SlotsInHeap(heap, slots)
    requires VisitSlots(heap, isArray, slots, seen).ok
    ensures var r := VisitSlots(heap, isArray, slots, seen);
      AllProcessed(heap, r.trace, r.seen) && Processed(heap, slots, r.seen)
    decreases |heap.Keys - seen|, 2, |slots|
  {
    if slots == [] {
    } else {
      var first := VisitValue(heap, slots[0].value, seen);
      VisitValueProcesses(heap, slots[0].value, seen);
      SmallerSet(heap.Keys - first.seen, heap.Keys - seen);
      VisitSlotsProcesses(heap, isArray, slots[1..], first.seen);
      SplitSlots(slots);
    }
  }

  ghost predicate ReachableFromSlots(heap: Heap, slots: seq<Slot>, id: Id) {
    exists ref :: ref in RefsOf(slots) && Reaches(heap, ref, id)
  }

  lemma SlotsReachMore(heap: Heap, slots: seq<Slot>, id: Id)
    requires slots != []
    ensures ReachableFrom(heap, slots[0].value, id) ==> ReachableFromSlots(heap, slots, id)
    ensures ReachableFromSlots(heap, slots[1..], id) ==> ReachableFromSlots(heap, slots, id)
  {
    if ReachableFrom(heap, slots[0].value, id) { assert slots[0].value.id in RefsOf(slots); }
  }

  /** Everything expanded is reachable, and an exception comes from a reachable BigInt. */
  lemma {:induction false} VisitValueIsReachable(heap: Heap, v: Value, seen: set<Id>)
    requires Closed(heap) && InHeap(heap, v)
    ensures var r := VisitValue(heap, v, seen);
      && (forall id :: id in r.trace ==> ReachableFrom(heap, v, id))
      && (r.out.Throws? && !v.BigInt? ==>
            exists id :: ReachableFrom(heap, v, id) && id in heap && HasBigInt(heap[id].slots))
    decreases |heap.Keys - seen|, 1, 0
  {
    if !v.Ref? || v.id in seen {
    } else {
      assert heap.Keys - (seen + {v.id}) < heap.Keys - seen;
      SmallerSet(heap.Keys - (seen + {v.id}), heap.Keys - seen);
      var slots := heap[v.id].slots;
      VisitSlotsIsReachable(heap, heap[v.id].isArray, slots, seen + {v.id});
      ReachesSelf(heap, v.id);
      forall id | ReachableFromSlots(heap, slots, id) ensures Reaches(heap, v.id, id) {
        var ref :| ref in RefsOf(slots) && Reaches(heap, ref, id);
        ReachesThrough(heap, v.id, ref, id);
      }
      var r := VisitSlots(heap, heap[v.id].isArray, slots, seen + {v.id});
      assert forall id :: id in [v.id] + r.trace <==> id == v.id || id in r.trace;
    }
  }

  lemma {:induction false} VisitSlotsIsReachable(heap: Heap, isArray: bool, slots: seq<Slot>, seen: set<Id>)
    requires Closed(heap) && SlotsInHeap(heap, slots)
    ensures var r := VisitSlots(heap, isArray, slots, seen);
      && (forall id :: id in r.trace ==> ReachableFromSlots(heap, slots, id))
      && (!r.ok && !HasBigInt(slots) ==>
            exists id :: ReachableFromSlots(heap, slots, id) && id in heap && HasBigInt(heap[id].slots))
    decreases |heap.Keys - seen|, 2, |slots|
  {
    if slots == [] {
    } else {
      SplitSlots(slots);
      forall id { SlotsReachMore(heap, slots, id); }
      var first := VisitValue(heap, slots[0].value, seen);
      VisitValueIsReachable(heap, slots[0].value, seen);
      if !first.out.Throws? {
        SmallerSet(heap.Keys - first.seen, heap.Keys - seen);
        VisitSlotsIsReachable(heap, isArray, slots[1..], first.seen);
      }
    }
  }

  /** Unless it gives up, a visit from the root expands exactly the reachable objects, each once. */
  lemma ExpandsExactlyTheReachable(heap: Heap, v: Value)
    requires Closed(heap) && InHeap(heap, v) && !VisitValue(heap, v, {}).out.Throws?
    ensures var trace := VisitValue(heap, v, {}).trace;
      NoDuplicates(trace) && forall id :: id in trace <==> ReachableFrom(heap, v, id)
  {
    var r := VisitValue(heap, v, {});
    VisitValueIsFresh(heap, v, {});
    VisitValueProcesses(heap, v, {});
    VisitValueIsReachable(heap, v, {});
    forall id | ReachableFrom(heap, v, id) ensures id in r.trace {
      var path :| IsPath(heap, path) && path[0] == v.id && path[|path| - 1] == id;
      ClosedSetCatchesPath(heap, r.seen, path);
    }
  }

  /** The printer falls back to String(value) if and only if a BigInt can be reached. */
  lemma FallsBackIff(heap: Heap, v: Value)
    requires Closed(heap) && InHeap(heap, v)
    ensures VisitValue(heap, v, {}).out.Throws? <==>
      v.BigInt? || exists id :: ReachableFrom(heap, v, id) && id in heap && HasBigInt(heap[id].slots)
  {
    VisitValueIsReachable(heap, v, {});
    if !VisitValue(heap, v, {}).out.Throws? {
      VisitValueProcesses(heap, v, {});
      ExpandsExactlyTheReachable(heap, v);
    }
  }

  // ----------------------------------------------------------------- references are conserved

  function Count(ids: seq<Id>, x: Id): nat {
    if ids == [] then 0 else (if ids[0] == x then 1 else 0) + Count(ids[1..], x)
  }

  lemma {:induction false} CountJoins(a: seq<Id>, b: seq<Id>, x: Id)
    ensures Count(a + b, x) == Count(a, x) + Count(b, x)
  {
    if a == [] {
      assert [] + b == b;
    } else {
      assert (a + b)[1..] == a[1..] + b;
      CountJoins(a[1..], b, x);
    }
  }

  lemma {:induction false} CountIsMembership(ids: seq<Id>, x: Id)
    ensures Count(ids, x) > 0 <==> x in ids
    ensures NoDuplicates(ids) ==> Count(ids, x) <= 1
  {
    if ids == [] {
    } else {
      assert ids == [ids[0]] + ids[1..];
      CountIsMembership(ids[1..], x);
    }
  }

  function RootRefs(v: Value, x: Id): nat {
    if v == Ref(x) then 1 else 0
  }

  /** How many slots of one object refer to x. */
  function RefsAt(heap: Heap, id: Id, x: Id): nat {
    if id in heap then Count(RefsOf(heap[id].slots), x) else 0
  }

  function RefsAlong(heap: Heap, ids: seq<Id>, x: Id): nat {
    if ids == [] then 0 else RefsAt(heap, ids[0], x) + RefsAlong(heap, ids[1..], x)
  }

  ghost function Pick(s: set<Id>): Id
    requires s != {}
    ensures Pick(s) in s
  {
    var id :| id in s; id
  }

  /** How many slots of the objects of a set refer to x. */
  ghost function RefsWithin(heap: Heap, s: set<Id>, x: Id): nat {
    if s == {} then 0 else RefsAt(heap, Pick(s), x) + RefsWithin(heap, s - {Pick(s)}, x)
  }

  lemma {:induction false} RefsWithinAdd(heap: Heap, s: set<Id>, id: Id, x: Id)
    requires id !in s
    ensures RefsWithin(heap, s + {id}, x) == RefsAt(heap, id, x) + RefsWithin(heap, s, x)
    decreases |s|
  {
    var pick := Pick(s + {id});
    if pick == id {
      assert s + {id} - {id} == s;
    } else {
      var less := s - {pick};
      assert s + {id} - {pick} == less + {id} && less + {pick} == s;
      RefsWithinAdd(heap, less, id, x);
      RefsWithinAdd(heap, less, pick, x);
    }
  }

  lemma {:induction false} RefsAlongJoins(heap: Heap, a: seq<Id>, b: seq<Id>, x: Id)
    ensures RefsAlong(heap, a + b, x) == RefsAlong(heap, a, x) + RefsAlong(heap, b, x)
  {
    if a == [] {
      assert [] + b == b;
    } else {
      assert (a + b)[1..] == a[1..] + b;
      RefsAlongJoins(heap, a[1..], b, x);
    }
  }

  lemma {:induction false} RefsAlongIsWithin(heap: Heap, ids: seq<Id>, s: set<Id>, x: Id)
    requires NoDuplicates(ids) && forall id :: id in ids <==> id in s
    ensures RefsAlong(heap, ids, x) == RefsWithin(heap, s, x)
  {
    if ids == [] {
      assert s == {};
    } else {
      assert ids == [ids[0]] + ids[1..];
      var rest := s - {ids[0]};
      RefsAlongIsWithin(heap, ids[1..], rest, x);
      assert rest + {ids[0]} == s;
      RefsWithinAdd(heap, rest, ids[0], x);
    }
  }

  lemma {:induction false} VisitValueConserves(heap: Heap, v: Value, seen: set<Id>, x: Id)
    requires Closed(heap) && InHeap(heap, v) && !VisitValue(heap, v, seen).out.Throws?
    ensures var r := VisitValue(heap, v, seen);
      RootRefs(v, x) + RefsAlong(heap, r.trace, x) == Count(r.trace, x) + Count(r.hits, x)
    decreases |heap.Keys - seen|, 1, 0
  {
    if !v.Ref? || v.id in seen {
    } else {
      assert heap.Keys - (seen + {v.id}) < heap.Keys - seen;
      SmallerSet(heap.Keys - (seen + {v.id}), heap.Keys - seen);
      VisitSlotsConserves(heap, heap[v.id].isArray, heap[v.id].slots, seen + {v.id}, x);
      var r := VisitSlots(heap, heap[v.id].isArray, heap[v.id].slots, seen + {v.id});
      assert ([v.id] + r.trace)[1..] == r.trace;
    }
  }

  lemma {:induction false} VisitSlotsConserves(heap: Heap, isArray: bool, slots: seq<Slot>, seen: set<Id>, x: Id)
    requires Closed(heap) && SlotsInHeap(heap, slots) && VisitSlots(heap, isArray, slots, seen).ok
    ensures var r := VisitSlots(heap, isArray, slots, seen);
      Count(RefsOf(slots), x) + RefsAlong(heap, r.trace, x) == Count(r.trace, x) + Count(r.hits, x)
    decreases |heap.Keys - seen|, 2, |slots|
  {
    if slots == [] {
    } else {
      var first := VisitValue(heap, slots[0].value, seen);
      VisitValueConserves(heap, slots[0].value, seen, x);
      SmallerSet(heap.Keys - first.seen, heap.Keys - seen);
      VisitSlotsConserves(heap, isArray, slots[1..], first.seen, x);
      var rest := VisitSlots(heap, isArray, slots[1..], first.seen);
      RefsAlongJoins(heap, first.trace, rest.trace, x);
      CountJoins(first.trace, rest.trace, x);
      CountJoins(first.hits, rest.hits, x);
      CountJoins(if slots[0].value.Ref? then [slots[0].value.id] else [], RefsOf(slots[1..]), x);
    }
  }

  ghost function Reachable(heap: Heap, v: Value): set<Id> {
    set id | id in heap && ReachableFrom(heap, v, id)
  }

  /** How often x is referred to from the root and from the reachable objects. */
  ghost function Incoming(heap: Heap, v: Value, x: Id): nat {
    RootRefs(v, x) + RefsWithin(heap, Reachable(heap, v), x)
  }

  /** No object is referred to twice: the reachable part of the graph is a tree. */
  ghost predicate Unshared(heap: Heap, v: Value) {
    forall x :: Incoming(heap, v, x) <= 1
  }

  /** Each reference either expands its object or is answered "[Circular]": a reachable object that is
      referred to n times is expanded once and answered n - 1 times. */
  lemma EveryReferenceIsAnswered(heap: Heap, v: Value, x: Id)
    requires Closed(heap) && InHeap(heap, v) && !VisitValue(heap, v, {}).out.Throws?
    ensures Incoming(heap, v, x)
            == Count(VisitValue(heap, v, {}).hits, x) + (if ReachableFrom(heap, v, x) then 1 else 0)
  {
    var trace := VisitValue(heap, v, {}).trace;
    ExpandsExactlyTheReachable(heap, v);
    VisitValueProcesses(heap, v, {});
    VisitValueConserves(heap, v, {}, x);
    RefsAlongIsWithin(heap, trace, Reachable(heap, v), x);
    CountIsMembership(trace, x);
  }

  /** "[Circular]" appears if and only if some object is referred to twice. */
  lemma CircularIffShared(heap: Heap, v: Value)
    requires Closed(heap) && InHeap(heap, v) && !VisitValue(heap, v, {}).out.Throws?
    ensures VisitValue(heap, v, {}).hits == [] <==> Unshared(heap, v)
  {
    var r := VisitValue(heap, v, {});
    forall x ensures Incoming(heap, v, x) <= 1 <==> Count(r.hits, x) == 0 {
      EveryReferenceIsAnswered(heap, v, x);
      CountIsMembership(r.hits, x);
      HitsAreExpanded(heap, v, x);
    }
    if r.hits != [] { CountIsMembership(r.hits, r.hits[0]); }
  }

  lemma HitsAreExpanded(heap: Heap, v: Value, x: Id)
    requires Closed(heap) && InHeap(heap, v) && !VisitValue(heap, v, {}).out.Throws?
    ensures x in VisitValue(heap, v, {}).hits ==> ReachableFrom(heap, v, x)
  {
    VisitValueHitsSeen(heap, v, {});
    VisitValueIsFresh(heap, v, {});
    ExpandsExactlyTheReachable(heap, v);
  }

  ghost predicate Within(ids: seq<Id>, s: set<Id>) {
    forall id :: id in ids ==> id in s
  }

  lemma {:induction false} VisitValueHitsSeen(heap: Heap, v: Value, seen: set<Id>)
    requires Closed(heap) && InHeap(heap, v)
    ensures var r := VisitValue(heap, v, seen); Within(r.hits, r.seen)
    decreases |heap.Keys - seen|, 1, 0
  {
    if !v.Ref? || v.id in seen {
    } else {
      assert heap.Keys - (seen + {v.id}) < heap.Keys - seen;
      SmallerSet(heap.Keys - (seen + {v.id}), heap.Keys - seen);
      VisitSlotsHitsSeen(heap, heap[v.id].isArray, heap[v.id].slots, seen + {v.id});
    }
  }

  lemma {:induction false} VisitSlotsHitsSeen(heap: Heap, isArray: bool, slots: seq<Slot>, seen: set<Id>)
    requires Closed(heap) && SlotsInHeap(heap, slots)
    ensures var r := VisitSlots(heap, isArray, slots, seen); Within(r.hits, r.seen)
    decreases |heap.Keys - seen|, 2, |slots|
  {
    if slots == [] {
    } else {
      var first := VisitValue(heap, slots[0].value, seen);
      VisitValueHitsSeen(heap, slots[0].value, seen);
      if !first.out.Throws? {
        SmallerSet(heap.Keys - first.seen, heap.Keys - seen);
        VisitSlotsHitsSeen(heap, isArray, slots[1..], first.seen);
      }
    }
  }

  // --------------------------------------------------------------------- the plain serialiser

  datatype Members = Members(ok: bool, members: seq<Member>)

  /** JSON.stringify without the guard, given a bound on the nesting it may follow; None when the
      bound is exhausted, as it is for every bound on a cyclic graph. */
  function Plain(heap: Heap, v: Value, depth: nat): Option<Printed>
    decreases depth, 1, 0
  {
    if !v.Ref? then Some(Leaf(v))
    else if depth == 0 || v.id !in heap then None
    else match PlainSlots(heap, heap[v.id].isArray, heap[v.id].slots, depth - 1)
      case None => None
      case Some(r) => Some(if r.ok then Tree(JNode(heap[v.id].isArray, r.members)) else Throws)
  }

  function PlainSlots(heap: Heap, isArray: bool, slots: seq<Slot>, depth: nat): Option<Members>
    decreases depth, 2, |slots|
  {
    if slots == [] then Some(Members(true, []))
    else match Plain(heap, slots[0].value, depth)
      case None => None
      case Some(Throws) => Some(Members(false, []))
      case Some(first) =>
        match PlainSlots(heap, isArray, slots[1..], depth)
        case None => None
        case Some(rest) => Some(Members(rest.ok, AddMember(isArray, slots[0].key, first, rest.members)))
  }

  /** The plain serialiser ends, with this output. */
  ghost predicate PlainPrints(heap: Heap, v: Value, out: Printed) {
    exists depth :: Plain(heap, v, depth) == Some(out)
  }

  lemma {:induction false} NoHitsMeansPlain(heap: Heap, v: Value, seen: set<Id>, depth: nat)
    requires Closed(heap) && InHeap(heap, v) && depth >= |heap.Keys - seen|
    requires var r := VisitValue(heap, v, seen); !r.out.Throws? && r.hits == []
    ensures Plain(heap, v, depth) == Some(VisitValue(heap, v, seen).out)
    decreases |heap.Keys - seen|, 1, 0
  {
    if v.Ref? {
      assert heap.Keys - (seen + {v.id}) < heap.Keys - seen;
      SmallerSet(heap.Keys - (seen + {v.id}), heap.Keys - seen);
      NoHitsMeansPlainSlots(heap, heap[v.id].isArray, heap[v.id].slots, seen + {v.id}, depth - 1);
    }
  }

  lemma {:induction false} NoHitsMeansPlainSlots(heap: Heap, isArray: bool, slots: seq<Slot>, seen: set<Id>, depth: nat)
    requires Closed(heap) && SlotsInHeap(heap, slots) && depth >= |heap.Keys - seen|
    requires var r := VisitSlots(heap, isArray, slots, seen); r.ok && r.hits == []
    ensures PlainSlots(heap, isArray, slots, depth)
            == Some(Members(true, VisitSlots(heap, isArray, slots, seen).members))
    decreases |heap.Keys - seen|, 2, |slots|
  {
    if slots == [] {
    } else {
      var first := VisitValue(heap, slots[0].value, seen);
      NoHitsMeansPlain(heap, slots[0].value, seen, depth);
      SmallerSet(heap.Keys - first.seen, heap.Keys - seen);
      NoHitsMeansPlainSlots(heap, isArray, slots[1..], first.seen, depth);
    }
  }

  lemma {:induction false} PlainMeansNoHits(heap: Heap, v: Value, seen: set<Id>, depth: nat)
    requires Closed(heap) && InHeap(heap, v)
    requires Plain(heap, v, depth) == Some(VisitValue(heap, v, seen).out)
    requires !VisitValue(heap, v, seen).out.Throws?
    ensures VisitValue(heap, v, seen).hits == []
    decreases |heap.Keys - seen|, 1, 0
  {
    if !v.Ref? || v.id in seen {
    } else {
      assert heap.Keys - (seen + {v.id}) < heap.Keys - seen;
      SmallerSet(heap.Keys - (seen + {v.id}), heap.Keys - seen);
      PlainMeansNoHitsSlots(heap, heap[v.id].isArray, heap[v.id].slots, seen + {v.id}, depth - 1);
    }
  }

  lemma {:induction false} PlainMeansNoHitsSlots(heap: Heap, isArray: bool, slots: seq<Slot>, seen: set<Id>, depth: nat)
    requires Closed(heap) && SlotsInHeap(heap, slots)
    requires VisitSlots(heap, isArray, slots, seen).ok
    requires PlainSlots(heap, isArray, slots, depth)
             == Some(Members(true, VisitSlots(heap, isArray, slots, seen).members))
    ensures VisitSlots(heap, isArray, slots, seen).hits == []
    decreases |heap.Keys - seen|, 2, |slots|
  {
    if slots == [] {
    } else {
      var first := VisitValue(heap, slots[0].value, seen);
      var plain := Plain(heap, slots[0].value, depth).value;
      SmallerSet(heap.Keys - first.seen, heap.Keys - seen);
      var rest := VisitSlots(heap, isArray, slots[1..], first.seen);
      var plainRest := PlainSlots(heap, isArray, slots[1..], depth).value;
      AddMemberIsInjective(isArray, slots[0].key, first.out, plain, rest.members, plainRest.members);
      PlainMeansNoHits(heap, slots[0].value, seen, depth);
      PlainMeansNoHitsSlots(heap, isArray, slots[1..], first.seen, depth);
    }
  }

  lemma AddMemberIsInjective(isArray: bool, key: string, p: Printed, q: Printed, ps: seq<Member>, qs: seq<Member>)
    requires p.Nothing? <==> q.Nothing?
    requires !p.Throws? && !q.Throws?
    requires AddMember(isArray, key, p, ps) == AddMember(isArray, key, q, qs)
    ensures p == q && ps == qs
  {
    var a, b := AddMember(isArray, key, p, ps), AddMember(isArray, key, q, qs);
    if p.Tree? {
      assert a[0] == b[0] && a[1..] == ps && b[1..] == qs;
    } else if isArray {
      assert a[1..] == ps && b[1..] == qs;
    }
  }

  /** The guarded printer and the plain one agree if and only if nothing reachable is shared. */
  lemma SameAsPlainIffUnshared(heap: Heap, v: Value)
    requires Closed(heap) && InHeap(heap, v) && !VisitValue(heap, v, {}).out.Throws?
    ensures PlainPrints(heap, v, VisitValue(heap, v, {}).out) <==> Unshared(heap, v)
  {
    var r := VisitValue(heap, v, {});
    CircularIffShared(heap, v);
    if Unshared(heap, v) {
      NoHitsMeansPlain(heap, v, {}, |heap.Keys - {}|);
    }
    if PlainPrints(heap, v, r.out) {
      var depth :| Plain(heap, v, depth) == Some(r.out);
      PlainMeansNoHits(heap, v, {}, depth);
    }
  }

  // ------------------------------------------------------------------- what the output shows

  /** The tree shows the value: primitives as they are, objects with all their slots in order, except that
      any reference may be cut to "[Circular]". */
  ghost predicate Shows(heap: Heap, v: Value, json: Json)
    decreases json, 1
  {
    match json
    case JNode(isArray, members) =>
      v.Ref? && v.id in heap && heap[v.id].isArray == isArray && ShowsSlots(heap, isArray, heap[v.id].slots, members)
    case JStr(s) => (v.Ref? && s == "[Circular]") || v == Str(s)
    case JNum(n) => v == Num(n)
    case JBool(b) => v == Bool(b)
    case JNull => v == Null
  }

  /** What JSON cannot print is null in an array and absent from an object. */
  ghost predicate ShowsSlots(heap: Heap, isArray: bool, slots: seq<Slot>, members: seq<Member>)
    decreases members, 0, |slots|
  {
    if slots == [] then members == []
    else if slots[0].value.Skipped? && !isArray then ShowsSlots(heap, isArray, slots[1..], members)
    else
      && members != [] && members[0].key == slots[0].key
      && (if slots[0].value.Skipped? then members[0].json == JNull else Shows(heap, slots[0].value, members[0].json))
      && ShowsSlots(heap, isArray, slots[1..], members[1..])
  }

  /** Whatever is printed shows the graph from the root. */
  lemma {:induction false} OutputShowsGraph(heap: Heap, v: Value, seen: set<Id>)
    requires Closed(heap) && InHeap(heap, v) && VisitValue(heap, v, seen).out.Tree?
    ensures Shows(heap, v, VisitValue(heap, v, seen).out.json)
    decreases |heap.Keys - seen|, 1, 0
  {
    if !v.Ref? || v.id in seen {
    } else {
      assert heap.Keys - (seen + {v.id}) < heap.Keys - seen;
      SmallerSet(heap.Keys - (seen + {v.id}), heap.Keys - seen);
      OutputShowsSlots(heap, heap[v.id].isArray, heap[v.id].slots, seen + {v.id});
    }
  }

  lemma {:induction false} OutputShowsSlots(heap: Heap, isArray: bool, slots: seq<Slot>, seen: set<Id>)
    requires Closed(heap) && SlotsInHeap(heap, slots) && VisitSlots(heap, isArray, slots, seen).ok
    ensures ShowsSlots(heap, isArray, slots, VisitSlots(heap, isArray, slots, seen).members)
    decreases |heap.Keys - seen|, 2, |slots|
  {
    if slots == [] {
    } else {
      hide Shows;
      var first := VisitValue(heap, slots[0].value, seen);
      OnlySkippedIsNothing(heap, slots[0].value, seen);
      if first.out.Tree? { OutputShowsGraph(heap, slots[0].value, seen); }
      SmallerSet(heap.Keys - first.seen, heap.Keys - seen);
      OutputShowsSlots(heap, isArray, slots[1..], first.seen);
      var rest := VisitSlots(heap, isArray, slots[1..], first.seen).members;
      var members := AddMember(isArray, slots[0].key, first.out, rest);
      assert first.out.Tree? || isArray ==> members[1..] == rest;
    }
  }

  lemma OnlySkippedIsNothing(heap: Heap, v: Value, seen: set<Id>)
    requires Closed(heap) && InHeap(heap, v)
    ensures VisitValue(heap, v, seen).out.Nothing? <==> v.Skipped?
  {}

  // ------------------------------------------------------------------------------ the logger

  /** What safeStringify hands back; JSON.stringify itself yields undefined for an unprintable root. */
  datatype Stringified = Json(json: Json) | Undefined | FellBackToString

  ghost function SafeStringify(heap: Heap, v: Value): Stringified
    requires Closed(heap) && InHeap(heap, v)
  {
    match VisitValue(heap, v, {}).out
    case Tree(j) => Json(j)
    case Nothing => Undefined
    case Throws => FellBackToString
  }

  /** What a call answers: the fallback if and only if a BigInt can be reached, undefined if and only if the root
      cannot be printed, and otherwise a tree that shows the graph, which is the plain serialiser's if and only if
      nothing reachable is shared. */
  lemma SafeStringifyAnswers(heap: Heap, v: Value)
    requires Closed(heap) && InHeap(heap, v)
    ensures var r := SafeStringify(heap, v);
      && (r.FellBackToString? <==>
            v.BigInt? || exists id :: ReachableFrom(heap, v, id) && id in heap && HasBigInt(heap[id].slots))
      && (r.Undefined? <==> v.Skipped?)
      && (r.Json? ==> Shows(heap, v, r.json) && (PlainPrints(heap, v, Tree(r.json)) <==> Unshared(heap, v)))
  {
    hide Shows, PlainPrints, Unshared, ReachableFrom, HasBigInt, Closed;
    FallsBackIff(heap, v);
    OnlySkippedIsNothing(heap, v, {});
    var out := VisitValue(heap, v, {}).out;
    if out.Tree? {
      OutputShowsGraph(heap, v, {});
      SameAsPlainIffUnshared(heap, v);
    }
  }

  /** One call of safeStringify: the replacer closure and the `seen` set it keeps. */
  class Replacer {
    var seen: set<Id>

    constructor ()
      ensures seen == {}
    {
      seen := {};
    }

    /** The replacer: answers a string for an object met before, and remembers a new one. */
    method Replace(val: Value) returns (r: Value)
      modifies this
      ensures val.Ref? && val.id in old(seen) ==> r == Str("[Circular]") && seen == old(seen)
      ensures val.Ref? && val.id !in old(seen) ==> r == val && seen == old(seen) + {val.id}
      ensures !val.Ref? ==> r == val && seen == old(seen)
    {
      if val.Ref? {
        if val.id in seen { return Str("[Circular]"); }
        seen := seen + {val.id};
      }
      r := val;
    }

    method SerializeValue(heap: Heap, value: Value) returns (out: Printed)
      requires Closed(heap) && InHeap(heap, value)
      modifies this
      ensures out == VisitValue(heap, value, old(seen)).out && seen == VisitValue(heap, value, old(seen)).seen
      decreases |heap.Keys - seen|, 1, 0
    {
      ghost var before := seen;
      var val := Replace(value);
      if val.Ref? {
        assert heap.Keys - (before + {val.id}) < heap.Keys - before;
        SmallerSet(heap.Keys - (before + {val.id}), heap.Keys - before);
        var ok, members := SerializeSlots(heap, heap[val.id].isArray, heap[val.id].slots);
        out := if ok then Tree(JNode(heap[val.id].isArray, members)) else Throws;
      } else {
        out := Leaf(val);
      }
    }

    method SerializeSlots(heap: Heap, isArray: bool, slots: seq<Slot>) returns (ok: bool, members: seq<Member>)
      requires Closed(heap) && SlotsInHeap(heap, slots)
      modifies this
      ensures var r := VisitSlots(heap, isArray, slots, old(seen));
        ok == r.ok && seen == r.seen && members == r.members
      decreases |heap.Keys - seen|, 2, |slots|
    {
      if slots == [] { return true, []; }
      ghost var before := seen;
      var first := SerializeValue(heap, slots[0].value);
      if first.Throws? { return false, []; }
      SmallerSet(heap.Keys - seen, heap.Keys - before);
      ok, members := SerializeSlots(heap, isArray, slots[1..]);
      members := AddMember(isArray, slots[0].key, first, members);
    }
  }

  method Stringify(heap: Heap, value: Value) returns (r: Stringified)
    requires Closed(heap) && InHeap(heap, value)
    ensures r == SafeStringify(heap, value)
  {
    var replacer := new Replacer();
    var out := replacer.SerializeValue(heap, value);
    match out
    case Tree(j) => r := Json(j);
    case Nothing => r := Undefined;
    case Throws => r := FellBackToString;
  }
}
