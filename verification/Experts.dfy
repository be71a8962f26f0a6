/**
 LlamaModel.modify_tensors and prepare_tensors on the experts of a mixture model: the tensors of the experts
 arrive one by one and in any order, and leave as three stacked tensors for each layer.
 */
module Experts {
  import opened Tensors

  datatype Failure =
    | NoLayer                      // AssertionError, IndexError
    | MissingExpert(name: string)  // KeyError
    | NotStackable                 // RuntimeError of torch.stack
    | Unmapped(name: string)       // ValueError of map_tensor_name
    | Unprocessed                  // ValueError of the final check

  datatype Reply<T> = Done(value: T) | Failed(why: Failure)

  /** A tensor under the name it arrives or leaves with. */
  datatype Entry = Entry(name: string, tensor: Tensor)

  type Dict = map<string, Tensor>

  // ---------------------------------------------------------------- names

  function Decimal(n: nat): (s: string)
    ensures |s| > 0
  {
    if n < 10 then [Digit(n)] else Decimal(n / 10) + [Digit(n % 10)]
  }

  function Digit(d: nat): char
    requires d < 10
  {
    "0123456789"[d]
  }

  lemma DigitsDiffer(d: nat, e: nat)
    requires d < 10 && e < 10 && Digit(d) == Digit(e)
    ensures d == e
  {
  }

  lemma {:induction false} DecimalsDiffer(m: nat, n: nat)
    requires Decimal(m) == Decimal(n)
    ensures m == n
  {
    assert m % 10 == n % 10 by {
      assert Decimal(m)[|Decimal(m)| - 1] == Digit(m % 10) && Decimal(n)[|Decimal(n)| - 1] == Digit(n % 10);
      DigitsDiffer(m % 10, n % 10);
    }
    if m >= 10 && n >= 10 {
      assert Decimal(m / 10) == Decimal(m)[..|Decimal(m)| - 1] == Decimal(n / 10);
      DecimalsDiffer(m / 10, n / 10);
    }
  }

  /** The number that a string of digits stands for. */
  ghost function Number(s: string): int {
    if s == "" then 0 else 10 * Number(s[..|s| - 1]) + (s[|s| - 1] as int - '0' as int)
  }

  lemma DigitIs(d: nat)
    requires d < 10
    ensures Digit(d) as int == '0' as int + d
  {
  }

  /** The decimal text of a number: digits that stand for it, without a leading zero. */
  lemma {:induction false} DecimalMeaning(n: nat)
    ensures forall i :: 0 <= i < |Decimal(n)| ==> '0' <= Decimal(n)[i] <= '9'
    ensures Number(Decimal(n)) == n
    ensures Decimal(n)[0] == '0' <==> n == 0
  {
    DigitIs(n % 10);
    if n >= 10 {
      DecimalMeaning(n / 10);
      assert Decimal(n)[..|Decimal(n)| - 1] == Decimal(n / 10);
    } else {
      assert Decimal(n) == [Digit(n)] && Decimal(n)[..0] == "";
    }
  }

  lemma DecimalOfOne(n: nat)
    requires n < 10
    ensures Decimal(n) == [Digit(n)]
  {
  }

  lemma DecimalOfTwo(n: nat)
    requires 10 <= n < 100
    ensures Decimal(n) == [Digit(n / 10), Digit(n % 10)]
  {
  }

  function Prefix(layer: nat): string {
    "model.layers." + Decimal(layer) + ".block_sparse_moe.experts."
  }

  /** The name an expert's tensor arrives with. */
  function Name(layer: nat, xid: nat, wid: string): string {
    Prefix(layer) + Decimal(xid) + "." + wid + ".weight"
  }

  function MergedName(layer: nat, wid: string): string {
    "layers." + Decimal(layer) + ".feed_forward.experts." + wid + ".weight"
  }

  /** The names of layer 10 in full. */
  lemma MergedNameExample(wid: string)
    ensures MergedName(10, wid) == "layers.10.feed_forward.experts." + wid + ".weight"
  {
    DecimalOfTwo(10);
    Spelled("layers.", ".feed_forward.experts.", "layers.10.feed_forward.experts.", Decimal(10));
  }

  lemma NameExample(xid: nat, wid: string)
    ensures Name(10, xid, wid) == "model.layers.10.block_sparse_moe.experts." + Decimal(xid) + "." + wid + ".weight"
  {
    PrefixExample(Decimal(10));
  }

  lemma PrefixExample(digits: string)
    requires digits == Decimal(10)
    ensures "model.layers." + digits + ".block_sparse_moe.experts." == "model.layers.10.block_sparse_moe.experts."
  {
    DecimalOfTwo(10);
    Spelled("model.layers.", ".block_sparse_moe.experts.", "model.layers.10.block_sparse_moe.experts.", digits);
  }

  lemma Spelled(front: string, back: string, whole: string, digits: string)
    requires digits == "10" && |whole| == |front| + 2 + |back|
    requires forall i :: 0 <= i < |front| ==> whole[i] == front[i]
    requires forall i :: 0 <= i < 2 ==> whole[|front| + i] == digits[i]
    requires forall i :: 0 <= i < |back| ==> whole[|front| + 2 + i] == back[i]
    ensures front + digits + back == whole
  {
  }

  const WIDS: seq<string> := ["w1", "w2", "w3"]

  lemma NamesDiffer(layer: nat, x: nat, w: string, x': nat, w': string)
    requires |w| == |w'| && Name(layer, x, w) == Name(layer, x', w')
    ensures x == x' && w == w'
  {
    var p, name := |Prefix(layer)|, Name(layer, x, w);
    var d, d' := Decimal(x), Decimal(x');
    assert |d| == |d'|;
    assert d == name[p..p + |d|] == d';
    DecimalsDiffer(x, x');
    assert w == name[p + |d| + 1..p + |d| + 1 + |w|] == w';
  }

  /** The names of one of the three weights of the first `n` experts of a layer. */
  function WidNames(layer: nat, wid: string, n: nat): set<string> {
    if n == 0 then {} else WidNames(layer, wid, n - 1) + {Name(layer, n - 1, wid)}
  }

  /** The names of all three. */
  function Names(layer: nat, n: nat): set<string> {
    WidNames(layer, "w1", n) + WidNames(layer, "w2", n) + WidNames(layer, "w3", n)
  }

  lemma {:induction false} WidNamesAt(layer: nat, wid: string, n: nat, name: string)
    ensures name in WidNames(layer, wid, n) <==> exists x: nat :: x < n && name == Name(layer, x, wid)
  {
    if n > 0 {
      var last := Name(layer, n - 1, wid);
      WidNamesAt(layer, wid, n - 1, name);
      assert WidNames(layer, wid, n) == WidNames(layer, wid, n - 1) + {last};
      if x: nat :| x < n && name == Name(layer, x, wid) {
        assert x < n - 1 || name == last;
      }
    }
  }

  lemma {:induction false} WidNamesCount(layer: nat, wid: string, n: nat)
    ensures |WidNames(layer, wid, n)| == n
  {
    if n > 0 {
      WidNamesCount(layer, wid, n - 1);
      WidNamesAt(layer, wid, n - 1, Name(layer, n - 1, wid));
      if Name(layer, n - 1, wid) in WidNames(layer, wid, n - 1) {
        var x: nat :| x < n - 1 && Name(layer, n - 1, wid) == Name(layer, x, wid);
        NamesDiffer(layer, n - 1, wid, x, wid);
      }
    }
  }

  lemma WidNamesDisjoint(layer: nat, w: string, w': string, n: nat)
    requires |w| == |w'| && w != w'
    ensures WidNames(layer, w, n) !! WidNames(layer, w', n)
  {
    forall name | name in WidNames(layer, w, n) && name in WidNames(layer, w', n)
      ensures false
    {
      WidNamesAt(layer, w, n, name);
      WidNamesAt(layer, w', n, name);
      var x: nat :| x < n && name == Name(layer, x, w);
      var x': nat :| x' < n && name == Name(layer, x', w');
      NamesDiffer(layer, x, w, x', w');
    }
  }

  lemma NamesCount(layer: nat, n: nat)
    ensures |Names(layer, n)| == 3 * n
  {
    WidNamesCount(layer, "w1", n);
    WidNamesCount(layer, "w2", n);
    WidNamesCount(layer, "w3", n);
    WidNamesDisjoint(layer, "w1", "w2", n);
    WidNamesDisjoint(layer, "w1", "w3", n);
    WidNamesDisjoint(layer, "w2", "w3", n);
  }

  /** An arriving tensor is an expert's when its name says so. */
  predicate IsExpert(name: string) {
    Mentions(name, "block_sparse_moe.experts")
  }

  predicate Mentions(name: string, part: string) {
    exists i :: 0 <= i <= |name| && StandsAt(name, part, i)
  }

  predicate StandsAt(name: string, part: string, i: nat) {
    i + |part| <= |name| && name[i..i + |part|] == part
  }

  lemma StandsBetween(front: string, part: string, back: string)
    ensures StandsAt(front + part + back, part, |front|)
  {
  }

  lemma NamesAreExperts(layer: nat, xid: nat, wid: string)
    ensures IsExpert(Name(layer, xid, wid))
  {
    var part, l, x := "block_sparse_moe.experts", Decimal(layer), Decimal(xid);
    assert ".block_sparse_moe.experts." == "." + part + ".";
    Regrouped("model.layers.", l, ".", part, ".", x, ".", wid, ".weight");
    StandsBetween("model.layers." + l + ".", part, "." + (x + "." + wid + ".weight"));
  }

  lemma Regrouped(a: string, b: string, c: string, d: string, e: string, f: string, g: string, h: string, i: string)
    ensures (a + b + (c + d + e)) + f + g + h + i == (a + b + c) + d + (e + (f + g + h + i))
  {
  }

  // ---------------------------------------------------------------- merging one layer

  /** The tensors of the first `n` experts in order, or the first that is missing. */
  function Gathered(d: Dict, layer: nat, wid: string, n: nat): (r: Reply<seq<Tensor>>)
    ensures r.Done? ==> |r.value| == n
  {
    if n == 0 then Done([])
    else
      match Gathered(d, layer, wid, n - 1)
      case Failed(why) => Failed(why)
      case Done(ts) =>
        if Name(layer, n - 1, wid) in d then Done(ts + [d[Name(layer, n - 1, wid)]])
        else Failed(MissingExpert(Name(layer, n - 1, wid)))
  }

  function Finished(ts: seq<Tensor>, layer: nat, wid: string, rename: map<string, string>): Reply<Entry> {
    match Stack(ts)
    case Err(_) => Failed(NotStackable)
    case Ok(t) =>
      if MergedName(layer, wid) in rename then Done(Entry(rename[MergedName(layer, wid)], t))
      else Failed(Unmapped(MergedName(layer, wid)))
  }

  function MergeOne(d: Dict, layer: nat, wid: string, n: nat, rename: map<string, string>): Reply<Entry> {
    match Gathered(d, layer, wid, n)
    case Failed(why) => Failed(why)
    case Done(ts) => Finished(ts, layer, wid, rename)
  }

  /** The stacked tensors of a layer, for the first `k` of the three weights. */
  function MergeUpTo(d: Dict, layer: nat, n: nat, rename: map<string, string>, k: nat): (r: Reply<seq<Entry>>)
    requires k <= 3
    ensures r.Done? ==> |r.value| == k
  {
    if k == 0 then Done([])
    else
      match MergeUpTo(d, layer, n, rename, k - 1)
      case Failed(why) => Failed(why)
      case Done(entries) =>
        match MergeOne(d, layer, WIDS[k - 1], n, rename)
        case Failed(why) => Failed(why)
        case Done(entry) => Done(entries + [entry])
  }

  function Merge(d: Dict, layer: nat, n: nat, rename: map<string, string>): Reply<seq<Entry>> {
    MergeUpTo(d, layer, n, rename, 3)
  }

  // ---------------------------------------------------------------- the accumulator

  class Accumulator {
    const blockCount: nat
    const nExperts: nat
    const rename: map<string, string>     // map_tensor_name, where it does not raise
    var experts: seq<Dict>
    var created: bool                     // false stands for None

    constructor (blockCount: nat, nExperts: nat, rename: map<string, string>)
      ensures this.blockCount == blockCount && this.nExperts == nExperts && this.rename == rename
      ensures Valid() && Layers() == Empty(blockCount)
    {
      this.blockCount, this.nExperts, this.rename := blockCount, nExperts, rename;
      experts, created := [], false;
    }

    predicate Valid()
      reads this
    {
      created ==> |experts| == blockCount
    }

    /** The dictionaries of the layers. */
    function Layers(): (r: seq<Dict>)
      reads this
      requires Valid()
      ensures |r| == blockCount
    {
      if created then experts else Empty(blockCount)
    }

    /** The inner loop of the merge: takes the tensors of one weight out of the dictionary of the layer. */
    method TakeOut(layer: nat, wid: string) returns (r: Reply<seq<Tensor>>)
      requires Valid() && created && layer < blockCount
      modifies this`experts
      ensures Valid()
      ensures r == Gathered(old(experts[layer]), layer, wid, nExperts)
      ensures r.Done? ==> experts == old(experts)[layer := old(experts[layer]) - WidNames(layer, wid, nExperts)]
    {
      var datas: seq<Tensor> := [];
      assert experts[layer] - WidNames(layer, wid, 0) == experts[layer];
      for xid := 0 to nExperts
        invariant Valid()
        invariant Gathered(old(experts[layer]), layer, wid, xid) == Done(datas)
        invariant experts == old(experts)[layer := old(experts[layer]) - WidNames(layer, wid, xid)]
      {
        var ename := Name(layer, xid, wid);
        StillThere(old(experts[layer]), layer, wid, xid);
        if ename !in experts[layer] {
          FirstMissing(old(experts[layer]), layer, wid, xid, nExperts);
          return Failed(MissingExpert(ename));
        }
        datas := datas + [experts[layer][ename]];
        experts := experts[layer := experts[layer] - {ename}];
        assert old(experts[layer]) - WidNames(layer, wid, xid) - {ename}
            == old(experts[layer]) - WidNames(layer, wid, xid + 1);
      }
      return Done(datas);
    }

    /** One of the three weights of a layer: gathered, stacked and renamed. */
    method MergeWid(layer: nat, wid: string) returns (r: Reply<Entry>)
      requires Valid() && created && layer < blockCount
      modifies this`experts
      ensures Valid()
      ensures r == MergeOne(old(experts[layer]), layer, wid, nExperts, rename)
      ensures r.Done? ==> experts == old(experts)[layer := old(experts[layer]) - WidNames(layer, wid, nExperts)]
    {
      var datas := TakeOut(layer, wid);
      if datas.Failed? {
        return Failed(datas.why);
      }
      return Finished(datas.value, layer, wid, rename);
    }

    method MergeLayer(layer: nat) returns (r: Reply<seq<Entry>>)
      requires Valid() && created && layer < blockCount
      modifies this`experts
      ensures Valid()
      ensures r == Merge(old(experts[layer]), layer, nExperts, rename)
      ensures r.Done? ==> experts == old(experts)[layer := old(experts[layer]) - Names(layer, nExperts)]
    {
      var tensors: seq<Entry> := [];
      ghost var was := experts[layer];
      assert was - Taken(layer, nExperts, 0) == was;
      for k := 0 to 3
        invariant Valid()
        invariant MergeUpTo(was, layer, nExperts, rename, k) == Done(tensors)
        invariant experts == old(experts)[layer := was - Taken(layer, nExperts, k)]
      {
        OthersUntouched(was, layer, k, nExperts, nExperts);
        var entry := MergeWid(layer, WIDS[k]);
        if entry.Failed? {
          MergeStops(was, layer, nExperts, rename, k + 1);
          return Failed(entry.why);
        }
        tensors := tensors + [entry.value];
        TakeMore(was, Taken(layer, nExperts, k), WidNames(layer, WIDS[k], nExperts));
      }
      AllTaken(layer, nExperts);
      return Done(tensors);
    }

    /** modify_tensors: what the arrival of one tensor makes leave. */
    method ModifyTensors(name: string, tensor: Tensor, bid: int) returns (r: Reply<seq<Entry>>)
      requires Valid()
      modifies this`experts, this`created
      ensures Valid()
      ensures var s := Arrive(old(Layers()), Arrival(bid, name, tensor), nExperts, rename);
              r == s.reply && (r.Done? ==> Layers() == s.layers)
    {
      if !IsExpert(name) {
        return if name in rename then Done([Entry(rename[name], tensor)]) else Failed(Unmapped(name));
      }
      if bid < 0 {
        return Failed(NoLayer);
      }
      if !created {
        experts, created := Empty(blockCount), true;
      }
      if bid >= |experts| {
        return Failed(NoLayer);
      }
      experts := experts[bid := experts[bid][name := tensor]];
      if |experts[bid]| >= nExperts * 3 {
        r := MergeLayer(bid);
      } else {
        r := Done([]);
      }
    }

    /** The final check of prepare_tensors. */
    method CheckProcessed() returns (r: Reply<()>)
      requires Valid()
      ensures r == if exists l :: 0 <= l < blockCount && Layers()[l] != map[] then Failed(Unprocessed) else Done(())
    {
      if created {
        for l := 0 to |experts|
          invariant forall k :: 0 <= k < l ==> experts[k] == map[]
        {
          if experts[l] != map[] {
            assert Layers()[l] != map[];
            return Failed(Unprocessed);
          }
        }
      }
      return Done(());
    }
  }

  function Empty(blocks: nat): seq<Dict> {
    seq(blocks, _ => map[])
  }

  /** The names taken out of a layer after `k` of the three weights. */
  function Taken(layer: nat, n: nat, k: nat): set<string>
    requires k <= 3
  {
    if k == 0 then {} else Taken(layer, n, k - 1) + WidNames(layer, WIDS[k - 1], n)
  }

  lemma TakeMore(d: Dict, a: set<string>, b: set<string>)
    ensures d - a - b == d - (a + b)
  {
  }

  lemma AllTaken(layer: nat, n: nat)
    ensures Taken(layer, n, 3) == Names(layer, n)
  {
    assert Taken(layer, n, 1) == {} + WidNames(layer, "w1", n);
    assert Taken(layer, n, 2) == Taken(layer, n, 1) + WidNames(layer, "w2", n);
  }

  lemma StillThere(d: Dict, layer: nat, wid: string, xid: nat)
    ensures var left := d - WidNames(layer, wid, xid);
            var name := Name(layer, xid, wid);
            (name in left <==> name in d) && (name in left ==> left[name] == d[name])
  {
    WidNamesAt(layer, wid, xid, Name(layer, xid, wid));
    if Name(layer, xid, wid) in WidNames(layer, wid, xid) {
      var x: nat :| x < xid && Name(layer, xid, wid) == Name(layer, x, wid);
      NamesDiffer(layer, xid, wid, x, wid);
    }
  }

  lemma {:induction false} FirstMissing(d: Dict, layer: nat, wid: string, xid: nat, n: nat)
    requires xid < n && Gathered(d, layer, wid, xid).Done? && Name(layer, xid, wid) !in d
    ensures Gathered(d, layer, wid, n) == Failed(MissingExpert(Name(layer, xid, wid)))
  {
    if xid < n - 1 {
      FirstMissing(d, layer, wid, xid, n - 1);
    }
  }

  /** What is taken out for the other weights is not missed. */
  lemma {:induction false} OthersUntouched(d: Dict, layer: nat, k: nat, all: nat, n: nat)
    requires k < 3 && n <= all
    ensures Gathered(d - Taken(layer, all, k), layer, WIDS[k], n) == Gathered(d, layer, WIDS[k], n)
  {
    if n > 0 {
      OthersUntouched(d, layer, k, all, n - 1);
      WidNamesAt(layer, WIDS[k], all, Name(layer, n - 1, WIDS[k]));
      TakenOthers(layer, all, k, k);
    }
  }

  lemma {:induction false} TakenOthers(layer: nat, n: nat, j: nat, k: nat)
    requires j <= k < 3
    ensures Taken(layer, n, j) !! WidNames(layer, WIDS[k], n)
  {
    if j > 0 {
      TakenOthers(layer, n, j - 1, k);
      WidNamesDisjoint(layer, WIDS[j - 1], WIDS[k], n);
    }
  }

  lemma {:induction false} MergeStops(d: Dict, layer: nat, n: nat, rename: map<string, string>, k: nat)
    requires 0 < k <= 3 && MergeUpTo(d, layer, n, rename, k).Failed?
    ensures Merge(d, layer, n, rename) == Failed(MergeUpTo(d, layer, n, rename, k).why)
    decreases 3 - k
  {
    if k < 3 {
      MergeStops(d, layer, n, rename, k + 1);
    }
  }

  // ---------------------------------------------------------------- one arrival

  datatype Arrival = Arrival(bid: int, name: string, tensor: Tensor)

  datatype Outcome = Outcome(layers: seq<Dict>, reply: Reply<seq<Entry>>)

  /** What the arrival of one tensor makes of the dictionaries and lets leave. */
  function Arrive(layers: seq<Dict>, a: Arrival, n: nat, rename: map<string, string>): (o: Outcome)
    ensures |o.layers| == |layers|
  {
    if !IsExpert(a.name) then
      Outcome(layers, if a.name in rename then Done([Entry(rename[a.name], a.tensor)]) else Failed(Unmapped(a.name)))
    else if a.bid < 0 || a.bid >= |layers| then Outcome(layers, Failed(NoLayer))
    else
      var d := layers[a.bid][a.name := a.tensor];
      if |d| >= n * 3 then Outcome(layers[a.bid := d - Names(a.bid, n)], Merge(d, a.bid, n, rename))
      else Outcome(layers[a.bid := d], Done([]))
  }

  // ---------------------------------------------------------------- what a merged layer lets leave

  lemma {:induction false} GatheredInOrder(d: Dict, layer: nat, wid: string, n: nat, x: nat)
    requires Gathered(d, layer, wid, n).Done? && x < n
    ensures Name(layer, x, wid) in d && Gathered(d, layer, wid, n).value[x] == d[Name(layer, x, wid)]
  {
    if x < n - 1 {
      GatheredInOrder(d, layer, wid, n - 1, x);
    }
  }

  lemma {:induction false} MergedUpTo(d: Dict, layer: nat, n: nat, rename: map<string, string>, k: nat, j: nat)
    requires j < k <= 3 && MergeUpTo(d, layer, n, rename, k).Done?
    ensures MergeOne(d, layer, WIDS[j], n, rename) == Done(MergeUpTo(d, layer, n, rename, k).value[j])
  {
    if j < k - 1 {
      MergedUpTo(d, layer, n, rename, k - 1, j);
    }
  }

  /** Stacked tensor `j` of a layer goes by its new name and holds the tensor of expert `x` at position `x`. */
  lemma ExpertAtItsIndex(d: Dict, layer: nat, n: nat, rename: map<string, string>, j: nat, x: nat, idx: Index)
    requires Merge(d, layer, n, rename).Done? && j < 3 && x < n
    requires Name(layer, x, WIDS[j]) in d && InRange(d[Name(layer, x, WIDS[j])].shape, idx)
    ensures var entry := Merge(d, layer, n, rename).value[j];
            && MergedName(layer, WIDS[j]) in rename && entry.name == rename[MergedName(layer, WIDS[j])]
            && entry.tensor.shape == [n] + d[Name(layer, x, WIDS[j])].shape
            && entry.tensor.At([x] + idx) == d[Name(layer, x, WIDS[j])].At(idx)
  {
    MergedUpTo(d, layer, n, rename, 3, j);
    var ts := Gathered(d, layer, WIDS[j], n).value;
    GatheredInOrder(d, layer, WIDS[j], n, x);
    assert ts[x].shape == ts[0].shape;
    StackMeaning(ts, x, idx);
  }
}
