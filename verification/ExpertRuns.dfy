/**
 Whole runs of the accumulator for expert tensors: the tensors of a model arrive in any order, those of experts and
 others mixed, and the same stacked tensors leave.
 */
module ExpertRuns {
  import opened Tensors
  import opened Experts

  datatype Progress = Progress(layers: seq<Dict>, out: seq<Entry>)

  /** A whole run from the start: the dictionaries at its end and all that has left. */
  function Run(blocks: nat, arrivals: seq<Arrival>, n: nat, rename: map<string, string>): Reply<Progress> {
    if arrivals == [] then Done(Progress(Empty(blocks), []))
    else
      match Run(blocks, arrivals[..|arrivals| - 1], n, rename)
      case Failed(why) => Failed(why)
      case Done(p) =>
        var o := Arrive(p.layers, arrivals[|arrivals| - 1], n, rename);
        match o.reply
        case Failed(why) => Failed(why)
        case Done(entries) => Done(Progress(o.layers, p.out + entries))
  }

  // ---------------------------------------------------------------- what arrives

  /** All that has arrived for the experts of a layer. */
  function Held(arrivals: seq<Arrival>, layer: nat): Dict {
    if arrivals == [] then map[]
    else
      var a, d := arrivals[|arrivals| - 1], Held(arrivals[..|arrivals| - 1], layer);
      if IsExpert(a.name) && a.bid == layer then d[a.name := a.tensor] else d
  }

  /** All `3 * n` tensors of the layer have arrived. */
  predicate Complete(arrivals: seq<Arrival>, layer: nat, n: nat) {
    Held(arrivals, layer).Keys == Names(layer, n)
  }

  /** The tensors of a model: no name twice, and those of experts belong to existing layers; in any order. */
  ghost predicate Orderly(arrivals: seq<Arrival>, blocks: nat, n: nat) {
    && (forall i :: 0 <= i < |arrivals| && IsExpert(arrivals[i].name) ==>
          0 <= arrivals[i].bid < blocks && arrivals[i].name in Names(arrivals[i].bid, n))
    && (forall i, j :: 0 <= i < j < |arrivals| ==> arrivals[i].name != arrivals[j].name)
  }

  /** The tensors of every complete layer have one shape for each weight, and the new names are known. */
  ghost predicate Mergeable(arrivals: seq<Arrival>, blocks: nat, n: nat, rename: map<string, string>) {
    && (forall l: nat :: l < blocks && Complete(arrivals, l, n) ==> Merge(Held(arrivals, l), l, n, rename).Done?)
    && (forall i :: 0 <= i < |arrivals| && !IsExpert(arrivals[i].name) ==> arrivals[i].name in rename)
  }

  lemma {:induction false} HeldAt(arrivals: seq<Arrival>, layer: nat, name: string)
    ensures name in Held(arrivals, layer) <==>
            IsExpert(name) &&
            exists i :: 0 <= i < |arrivals| && arrivals[i].bid == layer && arrivals[i].name == name
  {
    if arrivals != [] {
      HeldAt(arrivals[..|arrivals| - 1], layer, name);
    }
  }

  /** What is held under a name is the tensor that arrived with it. */
  lemma {:induction false} HeldIsArrived(arrivals: seq<Arrival>, i: nat, layer: nat)
    requires forall j, k :: 0 <= j < k < |arrivals| ==> arrivals[j].name != arrivals[k].name
    requires i < |arrivals| && arrivals[i].bid == layer && IsExpert(arrivals[i].name)
    ensures arrivals[i].name in Held(arrivals, layer)
    ensures Held(arrivals, layer)[arrivals[i].name] == arrivals[i].tensor
  {
    if i < |arrivals| - 1 {
      HeldIsArrived(arrivals[..|arrivals| - 1], i, layer);
    }
  }

  /** The last arrival is new: if it is an expert's, its layer was not complete. */
  lemma LastIsNew(arrivals: seq<Arrival>, blocks: nat, n: nat)
    requires Orderly(arrivals, blocks, n) && arrivals != []
    ensures var a, before := arrivals[|arrivals| - 1], arrivals[..|arrivals| - 1];
            && Orderly(before, blocks, n)
            && (IsExpert(a.name) ==> 0 <= a.bid < blocks && !Complete(before, a.bid, n))
  {
    var a, before := arrivals[|arrivals| - 1], arrivals[..|arrivals| - 1];
    if IsExpert(a.name) {
      HeldAt(before, a.bid, a.name);
      assert a.name in Names(a.bid, n);
    }
  }

  lemma HeldIsNamed(arrivals: seq<Arrival>, blocks: nat, n: nat, layer: nat)
    requires Orderly(arrivals, blocks, n)
    ensures Held(arrivals, layer).Keys <= Names(layer, n)
    ensures |Held(arrivals, layer)| >= n * 3 <==> Complete(arrivals, layer, n)
  {
    var d := Held(arrivals, layer);
    forall name | name in d.Keys
      ensures name in Names(layer, n)
    {
      HeldAt(arrivals, layer, name);
    }
    NamesCount(layer, n);
    assert |d| == |d.Keys|;
    SameSize(d.Keys, Names(layer, n));
  }

  lemma SameSize(a: set<string>, b: set<string>)
    requires a <= b
    ensures |a| <= |b| && (|a| >= |b| <==> a == b)
  {
    assert b == a + (b - a);
    assert |b| == |a| + |b - a|;
    if a != b {
      assert b - a != {};
    }
  }

  lemma NoneComplete(n: nat)
    requires n > 0
    ensures forall l: nat :: !Complete([], l, n)
  {
    forall l: nat
      ensures !Complete([], l, n)
    {
      NamesCount(l, n);
    }
  }

  // ---------------------------------------------------------------- what leaves

  /** A complete layer leaves, or a tensor that is no expert's. */
  datatype Exit = Layer(l: nat) | Plain(a: Arrival)

  /** What the last arrival brings to an end. */
  function LastExit(arrivals: seq<Arrival>, n: nat): seq<Exit>
    requires arrivals != []
  {
    var a := arrivals[|arrivals| - 1];
    if !IsExpert(a.name) then [Plain(a)]
    else if a.bid >= 0 && Complete(arrivals, a.bid, n) then [Layer(a.bid)]
    else []
  }

  /** In what order things leave. */
  function Order(arrivals: seq<Arrival>, n: nat): seq<Exit> {
    if arrivals == [] then [] else Order(arrivals[..|arrivals| - 1], n) + LastExit(arrivals, n)
  }

  function Leaves(arrivals: seq<Arrival>, e: Exit, n: nat, rename: map<string, string>): seq<Entry> {
    match e
    case Layer(l) =>
      (match Merge(Held(arrivals, l), l, n, rename)
       case Done(entries) => entries
       case Failed(_) => [])
    case Plain(a) => if a.name in rename then [Entry(rename[a.name], a.tensor)] else []
  }

  function AllLeave(arrivals: seq<Arrival>, order: seq<Exit>, n: nat, rename: map<string, string>): seq<Entry> {
    if order == [] then []
    else AllLeave(arrivals, order[..|order| - 1], n, rename) + Leaves(arrivals, order[|order| - 1], n, rename)
  }

  /** A layer holds what arrived for it until it is complete, and nothing from then on. */
  ghost predicate Holds(layers: seq<Dict>, arrivals: seq<Arrival>, n: nat) {
    forall l: nat :: l < |layers| ==> layers[l] == if Complete(arrivals, l, n) then map[] else Held(arrivals, l)
  }

  /** What a run keeps. */
  ghost predicate Accumulates(p: Progress, arrivals: seq<Arrival>, blocks: nat, n: nat, rename: map<string, string>) {
    && |p.layers| == blocks && Holds(p.layers, arrivals, n)
    && p.out == AllLeave(arrivals, Order(arrivals, n), n, rename)
  }

  /** Whether something leaves in the course of a run. */
  predicate Exits(arrivals: seq<Arrival>, e: Exit, n: nat) {
    match e
    case Layer(l) => Complete(arrivals, l, n)
    case Plain(a) => a in arrivals && !IsExpert(a.name)
  }

  ghost predicate NoRepeats(order: seq<Exit>) {
    forall i, j :: 0 <= i < j < |order| ==> order[i] != order[j]
  }

  /** The last arrival adds to what has left, and to nothing else. */
  lemma LastExits(arrivals: seq<Arrival>, blocks: nat, n: nat, e: Exit)
    requires Orderly(arrivals, blocks, n) && arrivals != []
    ensures var before := arrivals[..|arrivals| - 1];
            && (Exits(arrivals, e, n) <==> Exits(before, e, n) || e in LastExit(arrivals, n))
            && (Exits(before, e, n) ==> e !in LastExit(arrivals, n))
            && (e.Layer? && Exits(before, e, n) ==> Held(arrivals, e.l) == Held(before, e.l))
  {
    var a, before := arrivals[|arrivals| - 1], arrivals[..|arrivals| - 1];
    LastIsNew(arrivals, blocks, n);
    assert arrivals == before + [a];
  }

  /** Every complete layer and every other tensor leaves once, and nothing else does. */
  lemma {:induction false} OrderIsComplete(arrivals: seq<Arrival>, blocks: nat, n: nat)
    requires Orderly(arrivals, blocks, n) && n > 0
    ensures forall e :: e in Order(arrivals, n) <==> Exits(arrivals, e, n)
    ensures NoRepeats(Order(arrivals, n))
  {
    if arrivals == [] {
      NoneComplete(n);
    } else {
      LastIsNew(arrivals, blocks, n);
      OrderIsComplete(arrivals[..|arrivals| - 1], blocks, n);
      forall e
        ensures e in Order(arrivals, n) <==> Exits(arrivals, e, n)
        ensures e in Order(arrivals[..|arrivals| - 1], n) ==> e !in LastExit(arrivals, n)
      {
        LastExits(arrivals, blocks, n, e);
      }
      OneMoreExit(Order(arrivals[..|arrivals| - 1], n), LastExit(arrivals, n));
    }
  }

  lemma OneMoreExit(order: seq<Exit>, last: seq<Exit>)
    requires NoRepeats(order) && |last| <= 1 && forall e :: e in order ==> e !in last
    ensures NoRepeats(order + last)
  {
    forall i, j | 0 <= i < j < |order + last|
      ensures (order + last)[i] != (order + last)[j]
    {
      assert order[i] in order;
    }
  }

  lemma {:induction false} AllLeaveSame(a: seq<Arrival>, b: seq<Arrival>, order: seq<Exit>, n: nat,
                                        rename: map<string, string>)
    requires forall e :: e in order && e.Layer? ==> Held(a, e.l) == Held(b, e.l)
    ensures AllLeave(a, order, n, rename) == AllLeave(b, order, n, rename)
  {
    if order != [] {
      AllLeaveSame(a, b, order[..|order| - 1], n, rename);
      assert order[|order| - 1] in order;
    }
  }

  lemma AllLeaveOneMore(arrivals: seq<Arrival>, order: seq<Exit>, e: Exit, n: nat, rename: map<string, string>)
    ensures AllLeave(arrivals, order + [e], n, rename)
         == AllLeave(arrivals, order, n, rename) + Leaves(arrivals, e, n, rename)
  {
    assert (order + [e])[..|order|] == order;
  }

  /** What the last arrival lets leave. */
  function LastLeaves(arrivals: seq<Arrival>, n: nat, rename: map<string, string>): seq<Entry>
    requires arrivals != []
  {
    var exit := LastExit(arrivals, n);
    if exit == [] then [] else Leaves(arrivals, exit[0], n, rename)
  }

  /** What has left grows by what the last arrival lets leave. */
  lemma OneMoreLeaves(arrivals: seq<Arrival>, blocks: nat, n: nat, rename: map<string, string>)
    requires Orderly(arrivals, blocks, n) && n > 0 && arrivals != []
    ensures var before := arrivals[..|arrivals| - 1];
            AllLeave(arrivals, Order(arrivals, n), n, rename)
            == AllLeave(before, Order(before, n), n, rename) + LastLeaves(arrivals, n, rename)
  {
    var before, exit := arrivals[..|arrivals| - 1], LastExit(arrivals, n);
    EarlierHeld(arrivals, blocks, n);
    AllLeaveSame(before, arrivals, Order(before, n), n, rename);
    if exit == [] {
      assert Order(arrivals, n) == Order(before, n);
    } else {
      assert exit == [exit[0]];
      AllLeaveOneMore(arrivals, Order(before, n), exit[0], n, rename);
    }
  }

  lemma EarlierHeld(arrivals: seq<Arrival>, blocks: nat, n: nat)
    requires Orderly(arrivals, blocks, n) && n > 0 && arrivals != []
    ensures var before := arrivals[..|arrivals| - 1];
            forall e :: e in Order(before, n) && e.Layer? ==> Held(before, e.l) == Held(arrivals, e.l)
  {
    var before := arrivals[..|arrivals| - 1];
    LastIsNew(arrivals, blocks, n);
    OrderIsComplete(before, blocks, n);
    forall e | e in Order(before, n) && e.Layer?
      ensures Held(before, e.l) == Held(arrivals, e.l)
    {
      LastExits(arrivals, blocks, n, e);
    }
  }

  /** How a tensor is taken that makes `d` of the dictionary of its layer. */
  lemma ArriveAs(layers: seq<Dict>, a: Arrival, d: Dict, n: nat, rename: map<string, string>)
    requires 0 <= a.bid < |layers| && IsExpert(a.name) && d == layers[a.bid][a.name := a.tensor]
    requires |d| >= n * 3 <==> d.Keys == Names(a.bid, n)
    ensures var o := Arrive(layers, a, n, rename);
            if d.Keys == Names(a.bid, n) then
              o == Outcome(layers[a.bid := map[]], Merge(d, a.bid, n, rename))
            else
              o == Outcome(layers[a.bid := d], Done([]))
  {
    if d.Keys == Names(a.bid, n) {
      assert d - Names(a.bid, n) == map[];
    }
  }

  /** How the last arrival is taken if it is an expert's. */
  lemma ExpertArrives(layers: seq<Dict>, arrivals: seq<Arrival>, blocks: nat, n: nat, rename: map<string, string>)
    requires Orderly(arrivals, blocks, n) && Mergeable(arrivals, blocks, n, rename) && arrivals != []
    requires IsExpert(arrivals[|arrivals| - 1].name) && |layers| == blocks
    requires layers[arrivals[|arrivals| - 1].bid]
          == Held(arrivals[..|arrivals| - 1], arrivals[|arrivals| - 1].bid)
    ensures var a := arrivals[|arrivals| - 1];
            var o := Arrive(layers, a, n, rename);
            && o.layers == layers[a.bid := if Complete(arrivals, a.bid, n) then map[] else Held(arrivals, a.bid)]
            && o.reply == Done(LastLeaves(arrivals, n, rename))
  {
    var a := arrivals[|arrivals| - 1];
    HeldIsNamed(arrivals, blocks, n, a.bid);
    ArriveAs(layers, a, Held(arrivals, a.bid), n, rename);
  }

  lemma HoldsNext(layers: seq<Dict>, arrivals: seq<Arrival>, blocks: nat, n: nat, rename: map<string, string>)
    requires Orderly(arrivals, blocks, n) && Mergeable(arrivals, blocks, n, rename) && arrivals != []
    requires |layers| == blocks && Holds(layers, arrivals[..|arrivals| - 1], n)
    ensures var o := Arrive(layers, arrivals[|arrivals| - 1], n, rename);
            Holds(o.layers, arrivals, n) && o.reply == Done(LastLeaves(arrivals, n, rename))
  {
    LastIsNew(arrivals, blocks, n);
    if IsExpert(arrivals[|arrivals| - 1].name) {
      ExpertArrives(layers, arrivals, blocks, n, rename);
    } else {
      OtherArrives(layers, arrivals, blocks, n, rename);
    }
  }

  /** The step of RunAccumulates: one more arrival. */
  lemma OneMore(p: Progress, arrivals: seq<Arrival>, blocks: nat, n: nat, rename: map<string, string>)
    requires Orderly(arrivals, blocks, n) && Mergeable(arrivals, blocks, n, rename) && n > 0 && arrivals != []
    requires Accumulates(p, arrivals[..|arrivals| - 1], blocks, n, rename)
    ensures var o := Arrive(p.layers, arrivals[|arrivals| - 1], n, rename);
            o.reply.Done? && Accumulates(Progress(o.layers, p.out + o.reply.value), arrivals, blocks, n, rename)
  {
    HoldsNext(p.layers, arrivals, blocks, n, rename);
    OneMoreLeaves(arrivals, blocks, n, rename);
  }

  /** How it is taken otherwise. */
  lemma OtherArrives(layers: seq<Dict>, arrivals: seq<Arrival>, blocks: nat, n: nat, rename: map<string, string>)
    requires Mergeable(arrivals, blocks, n, rename) && arrivals != []
    requires !IsExpert(arrivals[|arrivals| - 1].name)
    ensures Arrive(layers, arrivals[|arrivals| - 1], n, rename)
         == Outcome(layers, Done(LastLeaves(arrivals, n, rename)))
    ensures forall l: nat :: Held(arrivals, l) == Held(arrivals[..|arrivals| - 1], l)
  {
  }

  lemma EarlierMergeable(arrivals: seq<Arrival>, blocks: nat, n: nat, rename: map<string, string>)
    requires Orderly(arrivals, blocks, n) && Mergeable(arrivals, blocks, n, rename) && arrivals != []
    ensures Mergeable(arrivals[..|arrivals| - 1], blocks, n, rename)
  {
    var before := arrivals[..|arrivals| - 1];
    forall l: nat | l < blocks && Complete(before, l, n)
      ensures Merge(Held(before, l), l, n, rename).Done?
    {
      LastExits(arrivals, blocks, n, Layer(l));
    }
  }

  /**
   In whatever order the tensors arrive, a run lets the three stacked tensors of every complete layer and every other
   tensor leave once, and holds exactly what has arrived for the layers that are not complete.
   */
  lemma {:induction false} RunAccumulates(blocks: nat, arrivals: seq<Arrival>, n: nat, rename: map<string, string>)
    requires Orderly(arrivals, blocks, n) && Mergeable(arrivals, blocks, n, rename) && n > 0
    ensures var r := Run(blocks, arrivals, n, rename);
            r.Done? && Accumulates(r.value, arrivals, blocks, n, rename)
    decreases |arrivals|
  {
    if arrivals == [] {
      NoneComplete(n);
    } else {
      var before := arrivals[..|arrivals| - 1];
      LastIsNew(arrivals, blocks, n);
      EarlierMergeable(arrivals, blocks, n, rename);
      RunAccumulates(blocks, before, n, rename);
      OneMore(Run(blocks, before, n, rename).value, arrivals, blocks, n, rename);
    }
  }

  /** The final check, after such a run: something is left exactly when a layer has begun but is not complete. */
  lemma LeftOver(blocks: nat, arrivals: seq<Arrival>, n: nat, rename: map<string, string>)
    requires Orderly(arrivals, blocks, n) && Mergeable(arrivals, blocks, n, rename) && n > 0
    ensures Run(blocks, arrivals, n, rename).Done?
    ensures var layers := Run(blocks, arrivals, n, rename).value.layers;
            (exists l :: 0 <= l < |layers| && layers[l] != map[]) <==>
            (exists i :: 0 <= i < |arrivals| && Begun(arrivals, i, n))
  {
    RunAccumulates(blocks, arrivals, n, rename);
    var layers := Run(blocks, arrivals, n, rename).value.layers;
    if l :| 0 <= l < |layers| && layers[l] != map[] {
      var name :| name in layers[l];
      HeldAt(arrivals, l, name);
      var i :| 0 <= i < |arrivals| && arrivals[i].bid == l && arrivals[i].name == name;
      assert Begun(arrivals, i, n);
    }
    if i :| 0 <= i < |arrivals| && Begun(arrivals, i, n) {
      HeldAt(arrivals, arrivals[i].bid, arrivals[i].name);
      assert layers[arrivals[i].bid] != map[];
    }
  }

  /** An expert's tensor arrived for a layer that is not complete. */
  predicate Begun(arrivals: seq<Arrival>, i: nat, n: nat)
    requires i < |arrivals|
  {
    IsExpert(arrivals[i].name) && arrivals[i].bid >= 0 && !Complete(arrivals, arrivals[i].bid, n)
  }

  // ---------------------------------------------------------------- the order does not matter

  ghost predicate SameElements(a: seq<Arrival>, b: seq<Arrival>) {
    forall x :: x in a <==> x in b
  }

  lemma HeldInOther(a: seq<Arrival>, b: seq<Arrival>, blocks: nat, n: nat, layer: nat, name: string)
    requires Orderly(a, blocks, n) && Orderly(b, blocks, n) && SameElements(a, b) && name in Held(a, layer)
    ensures name in Held(b, layer) && Held(b, layer)[name] == Held(a, layer)[name]
  {
    HeldAt(a, layer, name);
    var i :| 0 <= i < |a| && a[i].bid == layer && a[i].name == name;
    assert a[i] in b;
    var j :| 0 <= j < |b| && b[j] == a[i];
    HeldIsArrived(a, i, layer);
    HeldIsArrived(b, j, layer);
  }

  /** The same tensors in two orders: the same is held for every layer. */
  lemma HeldInAnyOrder(a: seq<Arrival>, b: seq<Arrival>, blocks: nat, n: nat, layer: nat)
    requires Orderly(a, blocks, n) && Orderly(b, blocks, n) && SameElements(a, b)
    ensures Held(a, layer) == Held(b, layer)
  {
    forall name
      ensures name in Held(a, layer) <==> name in Held(b, layer)
      ensures name in Held(a, layer) ==> Held(b, layer)[name] == Held(a, layer)[name]
    {
      if name in Held(a, layer) {
        HeldInOther(a, b, blocks, n, layer, name);
      }
      if name in Held(b, layer) {
        HeldInOther(b, a, blocks, n, layer, name);
      }
    }
    assert Held(a, layer).Keys == Held(b, layer).Keys;
  }

  lemma {:induction false} AllLeaveJoin(arrivals: seq<Arrival>, p: seq<Exit>, q: seq<Exit>, n: nat,
                                        rename: map<string, string>)
    ensures AllLeave(arrivals, p + q, n, rename)
         == AllLeave(arrivals, p, n, rename) + AllLeave(arrivals, q, n, rename)
  {
    if q == [] {
      assert p + q == p;
    } else {
      var front, last := q[..|q| - 1], q[|q| - 1];
      assert p + q == (p + front) + [last] && q == front + [last];
      AllLeaveJoin(arrivals, p, front, n, rename);
      AllLeaveOneMore(arrivals, p + front, last, n, rename);
      var a, b := AllLeave(arrivals, p, n, rename), AllLeave(arrivals, front, n, rename);
      Assoc(a, b, Leaves(arrivals, last, n, rename));
    }
  }

  lemma Assoc(a: seq<Entry>, b: seq<Entry>, c: seq<Entry>)
    ensures a + b + c == a + (b + c)
  {
  }

  lemma LeaveWithout(arrivals: seq<Arrival>, q: seq<Exit>, k: nat, n: nat, rename: map<string, string>)
    requires k < |q|
    ensures multiset(AllLeave(arrivals, q, n, rename))
         == multiset(AllLeave(arrivals, q[..k] + q[k + 1..], n, rename)) + multiset(Leaves(arrivals, q[k], n, rename))
  {
    assert q == (q[..k] + [q[k]]) + q[k + 1..];
    AllLeaveJoin(arrivals, q[..k] + [q[k]], q[k + 1..], n, rename);
    AllLeaveJoin(arrivals, q[..k], q[k + 1..], n, rename);
    AllLeaveOneMore(arrivals, q[..k], q[k], n, rename);
  }

  ghost predicate SameExits(p: seq<Exit>, q: seq<Exit>) {
    forall e :: e in p <==> e in q
  }

  lemma SomeExit(q: seq<Exit>)
    ensures q != [] ==> exists e :: e in q
  {
    if q != [] {
      assert q[0] in q;
    }
  }

  lemma NothingElse(q: seq<Exit>)
    requires SameExits([], q)
    ensures q == []
  {
    SomeExit(q);
  }

  /** The same exits in two orders let the same leave. */
  lemma {:induction false} LeaveInAnyOrder(arrivals: seq<Arrival>, p: seq<Exit>, q: seq<Exit>, n: nat,
                                           rename: map<string, string>)
    requires NoRepeats(p) && NoRepeats(q) && SameExits(p, q)
    ensures multiset(AllLeave(arrivals, p, n, rename)) == multiset(AllLeave(arrivals, q, n, rename))
    decreases |p|
  {
    if p == [] {
      NothingElse(q);
    } else {
      var m := |p| - 1;
      assert p[m] in q;
      var k :| 0 <= k < |q| && q[k] == p[m];
      WithoutOne(p, q, k);
      LeaveInAnyOrder(arrivals, p[..m], q[..k] + q[k + 1..], n, rename);
      LeaveWithout(arrivals, q, k, n, rename);
    }
  }

  lemma WithoutOne(p: seq<Exit>, q: seq<Exit>, k: nat)
    requires NoRepeats(p) && NoRepeats(q) && SameExits(p, q)
    requires p != [] && k < |q| && q[k] == p[|p| - 1]
    ensures NoRepeats(p[..|p| - 1]) && NoRepeats(q[..k] + q[k + 1..])
    ensures SameExits(p[..|p| - 1], q[..k] + q[k + 1..])
  {
    var rest := q[..k] + q[k + 1..];
    forall i, j | 0 <= i < j < |rest|
      ensures rest[i] != rest[j]
    {
      assert rest[i] == q[if i < k then i else i + 1] && rest[j] == q[if j < k then j else j + 1];
    }
    forall e
      ensures e in p[..|p| - 1] <==> e in p && e != p[|p| - 1]
      ensures e in rest <==> e in q && e != q[k]
    {
      if e in q && e != q[k] {
        var i :| 0 <= i < |q| && q[i] == e;
        assert rest[if i < k then i else i - 1] == e;
      }
    }
  }

  /** The same tensors in two orders: the same is left in the dictionaries, and the same tensors leave. */
  lemma AnyOrder(blocks: nat, a: seq<Arrival>, b: seq<Arrival>, n: nat, rename: map<string, string>)
    requires Orderly(a, blocks, n) && Orderly(b, blocks, n) && SameElements(a, b)
    requires Mergeable(a, blocks, n, rename) && n > 0
    ensures var r, t := Run(blocks, a, n, rename), Run(blocks, b, n, rename);
            r.Done? && t.Done? && r.value.layers == t.value.layers && multiset(r.value.out) == multiset(t.value.out)
  {
    forall l: nat
      ensures Held(a, l) == Held(b, l)
    {
      HeldInAnyOrder(a, b, blocks, n, l);
    }
    MergeableInAnyOrder(a, b, blocks, n, rename);
    RunAccumulates(blocks, a, n, rename);
    RunAccumulates(blocks, b, n, rename);
    SameLayers(Run(blocks, a, n, rename).value.layers, Run(blocks, b, n, rename).value.layers, a, b, n);
    ExitsInAnyOrder(a, b, blocks, n);
    AllLeaveSame(a, b, Order(b, n), n, rename);
    LeaveInAnyOrder(a, Order(a, n), Order(b, n), n, rename);
  }

  lemma SameLayers(p: seq<Dict>, q: seq<Dict>, a: seq<Arrival>, b: seq<Arrival>, n: nat)
    requires |p| == |q| && Holds(p, a, n) && Holds(q, b, n) && forall l: nat :: Held(a, l) == Held(b, l)
    ensures p == q
  {
  }

  /** The same exits take place. */
  lemma ExitsInAnyOrder(a: seq<Arrival>, b: seq<Arrival>, blocks: nat, n: nat)
    requires Orderly(a, blocks, n) && Orderly(b, blocks, n) && SameElements(a, b) && n > 0
    requires forall l: nat :: Held(a, l) == Held(b, l)
    ensures SameExits(Order(a, n), Order(b, n)) && NoRepeats(Order(a, n)) && NoRepeats(Order(b, n))
  {
    OrderIsComplete(a, blocks, n);
    OrderIsComplete(b, blocks, n);
    forall e
      ensures Exits(a, e, n) <==> Exits(b, e, n)
    {
    }
  }

  lemma MergeableInAnyOrder(a: seq<Arrival>, b: seq<Arrival>, blocks: nat, n: nat, rename: map<string, string>)
    requires Mergeable(a, blocks, n, rename) && SameElements(a, b) && forall l: nat :: Held(a, l) == Held(b, l)
    ensures Mergeable(b, blocks, n, rename)
  {
    forall l: nat | l < blocks && Complete(b, l, n)
      ensures Merge(Held(b, l), l, n, rename).Done?
    {
      assert Complete(a, l, n);
    }
    forall i | 0 <= i < |b| && !IsExpert(b[i].name)
      ensures b[i].name in rename
    {
      assert b[i] in a;
    }
  }

  // ---------------------------------------------------------------- where an expert's tensor ends up

  lemma {:induction false} LeavesInOut(arrivals: seq<Arrival>, order: seq<Exit>, e: Exit, entry: Entry, n: nat,
                                       rename: map<string, string>)
    requires e in order && entry in Leaves(arrivals, e, n, rename)
    ensures entry in AllLeave(arrivals, order, n, rename)
  {
    if e != order[|order| - 1] {
      LeavesInOut(arrivals, order[..|order| - 1], e, entry, n, rename);
    }
  }

  /**
   Whenever it arrived, the tensor of expert `x` for weight `j` of a complete layer leaves at position `x` of the
   stacked tensor of that weight.
   */
  lemma ExpertLeaves(blocks: nat, arrivals: seq<Arrival>, n: nat, rename: map<string, string>, i: nat, l: nat, j: nat,
                     x: nat, idx: Index)
    returns (entry: Entry)
    requires Orderly(arrivals, blocks, n) && Mergeable(arrivals, blocks, n, rename) && n > 0
    requires l < blocks && Complete(arrivals, l, n) && j < 3 && x < n
    requires i < |arrivals| && arrivals[i].bid == l && arrivals[i].name == Name(l, x, WIDS[j])
    requires InRange(arrivals[i].tensor.shape, idx)
    ensures Run(blocks, arrivals, n, rename).Done? && entry in Run(blocks, arrivals, n, rename).value.out
    ensures MergedName(l, WIDS[j]) in rename && entry.name == rename[MergedName(l, WIDS[j])]
    ensures entry.tensor.shape == [n] + arrivals[i].tensor.shape
    ensures entry.tensor.At([x] + idx) == arrivals[i].tensor.At(idx)
  {
    NamesAreExperts(l, x, WIDS[j]);
    HeldIsArrived(arrivals, i, l);
    ExpertAtItsIndex(Held(arrivals, l), l, n, rename, j, x, idx);
    entry := Merge(Held(arrivals, l), l, n, rename).value[j];
    RunAccumulates(blocks, arrivals, n, rename);
    OrderIsComplete(arrivals, blocks, n);
    assert Exits(arrivals, Layer(l), n);
    LeavesInOut(arrivals, Order(arrivals, n), Layer(l), entry, n, rename);
  }
}
