/**
 The pool of device buffers of ggml_cl_pool_malloc and ggml_cl_pool_free. A pool slot with size 0 is empty.
 The ledger (which buffers exist, how large they really are, who holds them) is what the device knows; the
 program only sees the slots.
 */
module BufferPool {
  const SLOTS: nat := 400
  const SIZE_MAX: nat := 0xFFFF_FFFF_FFFF_FFFF

  /** A device buffer. */
  type Mem = nat

  datatype Slot = Slot(mem: Mem, size: nat)

  datatype State = State(
    slots: seq<Slot>,
    live: map<Mem, nat>,   // the buffers that exist, with their true sizes
    held: set<Mem>,        // those handed out and not given back
    created: nat,
    released: nat)
  {
    /** Every buffer is in exactly one slot or held, never both, and the slots know the true sizes. */
    ghost predicate Valid() {
      && (forall i :: Used(slots, i) ==>
            slots[i].mem in live && slots[i].mem !in held && live[slots[i].mem] == slots[i].size)
      && (forall i, j :: Used(slots, i) && Used(slots, j) && slots[i].mem == slots[j].mem ==> i == j)
      && (forall m :: m in held ==> m in live)
      && (forall m :: m in live ==> m in held || exists i :: Pools(slots, i, m))
      && (forall m :: m in live ==> 0 < live[m] <= SIZE_MAX)
      && created == |live| + released
    }

    /** Slot `i` given up: its buffer is no longer in the pool. */
    function Emptied(i: nat): State
      requires i < |slots|
    {
      this.(slots := slots[i := slots[i].(size := 0)])
    }

    /** Buffer `m` released to the device. */
    function Released(m: Mem): State {
      this.(live := live - {m}, held := held - {m}, released := released + 1)
    }
  }

  predicate Used(slots: seq<Slot>, i: int) {
    0 <= i < |slots| && slots[i].size > 0
  }

  predicate Pools(slots: seq<Slot>, i: int, m: Mem) {
    Used(slots, i) && slots[i].mem == m
  }

  /** A slot the search may settle on; the largest size of all never beats the initial best size. */
  predicate Fits(slots: seq<Slot>, want: nat, i: int) {
    Used(slots, i) && want <= slots[i].size < SIZE_MAX
  }

  /** The first of the smallest slots that fit, among the first `n`. */
  ghost predicate IsBest(slots: seq<Slot>, n: nat, want: nat, i: int) {
    && i < n && Fits(slots, want, i)
    && forall j :: j < n && Fits(slots, want, j) ==>
         slots[i].size <= slots[j].size && (j < i ==> slots[i].size < slots[j].size)
  }

  /** The first of the largest used slots, among the first `n`. */
  ghost predicate IsLargest(slots: seq<Slot>, n: nat, i: int) {
    && i < n && Used(slots, i)
    && forall j :: j < n && Used(slots, j) ==>
         slots[j].size <= slots[i].size && (j < i ==> slots[j].size < slots[i].size)
  }

  // ---------------------------------------------------------------- what the clients can do

  datatype Event =
    | Malloc(want: nat, mem: Mem, actual: nat)
    | Free(mem: Mem, size: nat)
    | Drop(mem: Mem)       // a client releases its buffer itself, as ggml_cl_free_data does

  /** A pooled buffer is handed out: the smallest that fits. */
  ghost predicate Reuses(s: State, want: nat, mem: Mem, actual: nat, t: State) {
    exists i :: IsBest(s.slots, |s.slots|, want, i) && s.slots[i] == Slot(mem, actual) &&
                t == s.Emptied(i).(held := s.held + {mem})
  }

  /** `m` is a new buffer of `want` bytes. */
  ghost predicate Creates(s: State, want: nat, mem: Mem, t: State) {
    && mem !in s.live
    && t == s.(live := s.live[mem := want], held := s.held + {mem}, created := s.created + 1)
  }

  /** No pooled buffer fits: the largest one, if any, makes room for a new buffer. */
  ghost predicate Replaces(s: State, want: nat, mem: Mem, t: State) {
    && (forall i :: !Fits(s.slots, want, i))
    && ((exists i :: IsLargest(s.slots, |s.slots|, i) && Creates(s.Emptied(i).Released(s.slots[i].mem), want, mem, t))
        || ((forall i :: !Used(s.slots, i)) && Creates(s, want, mem, t)))
  }

  ghost predicate Step(s: State, e: Event, t: State) {
    match e
    case Malloc(want, mem, actual) =>
      0 < want <= SIZE_MAX && (Reuses(s, want, mem, actual, t) || (Replaces(s, want, mem, t) && actual == want))
    case Free(mem, size) =>
      && mem in s.held && mem in s.live && s.live[mem] == size
      && ((exists i :: 0 <= i < |s.slots| && !Used(s.slots, i) && (forall j :: 0 <= j < i ==> Used(s.slots, j)) &&
                       t == s.(slots := s.slots[i := Slot(mem, size)], held := s.held - {mem}))
          || ((forall i :: 0 <= i < |s.slots| ==> Used(s.slots, i)) && t == s.Released(mem)))
    case Drop(mem) =>
      mem in s.held && t == s.Released(mem)
  }

  lemma EmptyingKeepsValid(s: State, i: nat, m: Mem)
    requires s.Valid() && Pools(s.slots, i, m)
    ensures s.Emptied(i).(held := s.held + {m}).Valid()
    ensures s.Emptied(i).Released(m).Valid()
  {
    var t := s.Emptied(i);
    forall n | n in s.live && n != m && n !in s.held
      ensures exists k :: Pools(t.slots, k, n)
    {
      var k :| Pools(s.slots, k, n);
      assert Pools(t.slots, k, n);
    }
    assert forall k :: Used(t.slots, k) ==> Used(s.slots, k) && k != i;
    assert |s.live - {m}| == |s.live| - 1 by {
      assert s.live.Keys == (s.live - {m}).Keys + {m};
      assert |s.live| == |s.live.Keys| && |s.live - {m}| == |(s.live - {m}).Keys|;
    }
  }

  lemma CreatingKeepsValid(s: State, want: nat, m: Mem, t: State)
    requires s.Valid() && 0 < want <= SIZE_MAX && Creates(s, want, m, t)
    ensures t.Valid()
  {
    assert t.live.Keys == s.live.Keys + {m};
    assert |s.live| == |s.live.Keys| && |t.live| == |t.live.Keys|;
  }

  /** Nothing a client can do breaks the ownership of buffers. */
  lemma StepKeepsValid(s: State, e: Event, t: State)
    requires s.Valid() && Step(s, e, t)
    ensures t.Valid()
  {
    match e
    case Malloc(want, mem, actual) =>
      if Reuses(s, want, mem, actual, t) {
        var i :| IsBest(s.slots, |s.slots|, want, i) && s.slots[i] == Slot(mem, actual) &&
                 t == s.Emptied(i).(held := s.held + {mem});
        EmptyingKeepsValid(s, i, mem);
      } else if forall i :: !Used(s.slots, i) {
        CreatingKeepsValid(s, want, mem, t);
      } else {
        var i :| IsLargest(s.slots, |s.slots|, i) && Creates(s.Emptied(i).Released(s.slots[i].mem), want, mem, t);
        EmptyingKeepsValid(s, i, s.slots[i].mem);
        CreatingKeepsValid(s.Emptied(i).Released(s.slots[i].mem), want, mem, t);
      }
    case Free(mem, size) =>
      if forall i :: 0 <= i < |s.slots| ==> Used(s.slots, i) {
        ReleasingKeepsValid(s, mem);
      } else {
        var i :| 0 <= i < |s.slots| && !Used(s.slots, i) &&
                 t == s.(slots := s.slots[i := Slot(mem, size)], held := s.held - {mem});
        FillingKeepsValid(s, i, mem);
      }
    case Drop(mem) =>
      ReleasingKeepsValid(s, mem);
  }

  lemma ReleasingKeepsValid(s: State, m: Mem)
    requires s.Valid() && m in s.held
    ensures s.Released(m).Valid()
  {
    assert s.live.Keys == (s.live - {m}).Keys + {m};
    assert |s.live| == |s.live.Keys| && |s.live - {m}| == |(s.live - {m}).Keys|;
  }

  lemma FillingKeepsValid(s: State, i: nat, m: Mem)
    requires s.Valid() && m in s.held && i < |s.slots| && !Used(s.slots, i)
    ensures s.(slots := s.slots[i := Slot(m, s.live[m])], held := s.held - {m}).Valid()
  {
    var t := s.(slots := s.slots[i := Slot(m, s.live[m])], held := s.held - {m});
    assert Pools(t.slots, i, m);
    forall n | n in s.live && n !in s.held
      ensures exists k :: Pools(t.slots, k, n)
    {
      var k :| Pools(s.slots, k, n);
      assert Pools(t.slots, k, n);
    }
    assert forall k :: Used(t.slots, k) && k != i ==> Used(s.slots, k);
  }

  // ---------------------------------------------------------------- conservation

  /** The number of used slots among the first `n`. */
  function Count(slots: seq<Slot>, n: nat): nat
    requires n <= |slots|
  {
    if n == 0 then 0 else Count(slots, n - 1) + if slots[n - 1].size > 0 then 1 else 0
  }

  /** The buffers in the first `n` slots. */
  function Mems(slots: seq<Slot>, n: nat): set<Mem>
    requires n <= |slots|
  {
    if n == 0 then {} else Mems(slots, n - 1) + if slots[n - 1].size > 0 then {slots[n - 1].mem} else {}
  }

  lemma {:induction false} MemsAt(slots: seq<Slot>, n: nat, m: Mem)
    requires n <= |slots|
    ensures m in Mems(slots, n) <==> exists i :: i < n && Pools(slots, i, m)
  {
    if n > 0 {
      MemsAt(slots, n - 1, m);
      assert Pools(slots, n - 1, m) ==> m in Mems(slots, n);
    }
  }

  lemma {:induction false} CountIsMems(slots: seq<Slot>, n: nat)
    requires n <= |slots|
    requires forall i, j :: Used(slots, i) && Used(slots, j) && slots[i].mem == slots[j].mem ==> i == j
    ensures Count(slots, n) == |Mems(slots, n)|
  {
    if n > 0 {
      CountIsMems(slots, n - 1);
      MemsAt(slots, n - 1, slots[n - 1].mem);
    }
  }

  /** No buffer is lost: whatever was created is pooled, held or released. */
  lemma BuffersAreConserved(s: State)
    requires s.Valid()
    ensures s.created == Count(s.slots, |s.slots|) + |s.held| + s.released
  {
    CountIsMems(s.slots, |s.slots|);
    LiveIsPooledOrHeld(s);
    assert |s.live| == |s.live.Keys|;
  }

  lemma LiveIsPooledOrHeld(s: State)
    requires s.Valid()
    ensures s.live.Keys == Mems(s.slots, |s.slots|) + s.held && Mems(s.slots, |s.slots|) !! s.held
  {
    forall m
      ensures m in Mems(s.slots, |s.slots|) <==> exists i :: Pools(s.slots, i, m)
    {
      MemsAt(s.slots, |s.slots|, m);
    }
  }

  // ---------------------------------------------------------------- runs

  /** A run of the pool: what happened, and the states in between. */
  ghost predicate Run(states: seq<State>, events: seq<Event>) {
    && |states| == |events| + 1
    && states[0].Valid()
    && forall k :: 0 <= k < |events| ==> Step(states[k], events[k], states[k + 1])
  }

  lemma {:induction false} RunIsValid(states: seq<State>, events: seq<Event>, k: nat)
    requires Run(states, events) && k <= |events|
    ensures states[k].Valid()
  {
    if k > 0 {
      RunIsValid(states, events, k - 1);
      StepKeepsValid(states[k - 1], events[k - 1], states[k]);
    }
  }

  predicate GivesUp(e: Event, m: Mem) {
    (e.Free? || e.Drop?) && e.mem == m
  }

  lemma StepKeepsHolder(s: State, e: Event, t: State, m: Mem)
    requires s.Valid() && Step(s, e, t) && m in s.held && !GivesUp(e, m)
    ensures m in t.held && m in t.live && t.live[m] == s.live[m]
  {
    if e.Malloc? && Reuses(s, e.want, e.mem, e.actual, t) {
      var i :| IsBest(s.slots, |s.slots|, e.want, i) && t == s.Emptied(i).(held := s.held + {e.mem});
    }
  }

  /** A buffer stays with its holder, at its true size, until the holder gives it up. */
  lemma {:induction false} HeldUntilGivenUp(states: seq<State>, events: seq<Event>, i: nat, j: nat, m: Mem)
    requires Run(states, events) && i <= j <= |events|
    requires m in states[i].held && m in states[i].live
    requires forall k :: i <= k < j ==> !GivesUp(events[k], m)
    ensures m in states[j].held && m in states[j].live && states[j].live[m] == states[i].live[m]
  {
    if i < j {
      HeldUntilGivenUp(states, events, i, j - 1, m);
      RunIsValid(states, events, j - 1);
      StepKeepsHolder(states[j - 1], events[j - 1], states[j], m);
    }
  }

  /** What malloc hands out is nobody else's, and as large as it says and as was asked for. */
  lemma MallocHandsOut(s: State, e: Event, t: State)
    requires s.Valid() && e.Malloc? && Step(s, e, t)
    ensures e.mem !in s.held && t.held == s.held + {e.mem}
    ensures e.mem in t.live && t.live[e.mem] == e.actual >= e.want
    ensures forall m :: m in s.held ==> m in t.live && t.live[m] == s.live[m]
  {
    if Reuses(s, e.want, e.mem, e.actual, t) {
      var i :| IsBest(s.slots, |s.slots|, e.want, i) && s.slots[i] == Slot(e.mem, e.actual);
      assert Used(s.slots, i);
    }
  }

  /** A buffer handed out twice was given up in between. */
  lemma NeverHandedOutTwice(states: seq<State>, events: seq<Event>, i: nat, j: nat)
    requires Run(states, events) && i < j < |events|
    requires events[i].Malloc? && events[j].Malloc? && events[i].mem == events[j].mem
    ensures exists k :: i < k < j && GivesUp(events[k], events[i].mem)
  {
    var m := events[i].mem;
    RunIsValid(states, events, i);
    RunIsValid(states, events, j);
    assert Step(states[i], events[i], states[i + 1]) && Step(states[j], events[j], states[j + 1]);
    MallocHandsOut(states[i], events[i], states[i + 1]);
    MallocHandsOut(states[j], events[j], states[j + 1]);
    if forall k :: i < k < j ==> !GivesUp(events[k], m) {
      HeldUntilGivenUp(states, events, i + 1, j, m);
      assert false;
    }
  }

  /** A new buffer is made only when no pooled one would do, and then the largest pooled one goes. */
  lemma CreatesOnlyWhenNothingFits(s: State, e: Event, t: State)
    requires s.Valid() && e.Malloc? && Step(s, e, t)
    ensures t.created > s.created <==> forall i :: !Fits(s.slots, e.want, i)
    ensures t.released > s.released <==> t.created > s.created && exists i :: Used(s.slots, i)
  {
    if Reuses(s, e.want, e.mem, e.actual, t) {
      var i :| IsBest(s.slots, |s.slots|, e.want, i);
      assert Fits(s.slots, e.want, i);
    }
  }

  // ---------------------------------------------------------------- which buffer, in plain numbers

  /** A buffer of the pool that is large enough is handed out: the first of the smallest. Nothing else changes. */
  lemma MallocReuses(s: State, e: Event, t: State, k: nat)
    requires s.Valid() && e.Malloc? && Step(s, e, t)
    requires k < |s.slots| && 0 < e.want <= s.slots[k].size < SIZE_MAX
    ensures exists i: nat :: i < |s.slots| && s.slots[i] == Slot(e.mem, e.actual) &&
              t.slots == s.slots[i := Slot(e.mem, 0)] &&
              (forall j: nat :: j < |s.slots| && e.want <= s.slots[j].size < SIZE_MAX ==>
                 e.actual <= s.slots[j].size && (j < i ==> e.actual < s.slots[j].size))
    ensures e.want <= e.actual && t.live == s.live && t.created == s.created && t.released == s.released
  {
    assert Fits(s.slots, e.want, k);
    var i: nat :| IsBest(s.slots, |s.slots|, e.want, i) && s.slots[i] == Slot(e.mem, e.actual) &&
                  t == s.Emptied(i).(held := s.held + {e.mem});
    assert t.slots == s.slots[i := Slot(e.mem, 0)];
    forall j: nat | j < |s.slots| && e.want <= s.slots[j].size < SIZE_MAX
      ensures e.actual <= s.slots[j].size && (j < i ==> e.actual < s.slots[j].size)
    {
      assert Fits(s.slots, e.want, j);
    }
  }

  lemma NothingFits(s: State, e: Event, t: State)
    requires e.Malloc? && Step(s, e, t)
    requires forall k :: 0 <= k < |s.slots| ==> s.slots[k].size < e.want || s.slots[k].size >= SIZE_MAX
    ensures Replaces(s, e.want, e.mem, t) && e.actual == e.want
  {
    assert forall i :: !Fits(s.slots, e.want, i);
  }

  /** With an empty pool a buffer of just the size asked for is made. */
  lemma MallocCreates(s: State, e: Event, t: State)
    requires e.Malloc? && Step(s, e, t) && forall k :: 0 <= k < |s.slots| ==> s.slots[k].size == 0
    ensures e.actual == e.want && t.created == s.created + 1 && t.released == s.released
    ensures t.slots == s.slots && t.live == s.live[e.mem := e.want]
  {
    NothingFits(s, e, t);
  }

  lemma LargestIs(slots: seq<Slot>, i: nat, j: nat)
    requires IsLargest(slots, |slots|, i) && j < |slots|
    ensures slots[j].size <= slots[i].size && (j < i ==> slots[j].size < slots[i].size)
  {
    assert Used(slots, j) || slots[j].size == 0;
  }

  lemma Replaced(s: State, want: nat, mem: Mem, t: State, i: nat)
    requires i < |s.slots| && Creates(s.Emptied(i).Released(s.slots[i].mem), want, mem, t)
    ensures t.slots == s.slots[i := Slot(s.slots[i].mem, 0)]
    ensures t.live == (s.live - {s.slots[i].mem})[mem := want]
    ensures t.created == s.created + 1 && t.released == s.released + 1
  {
  }

  /** With buffers in the pool none of which will do, the first of the largest goes before one is made. */
  lemma MallocReplaces(s: State, e: Event, t: State, k: nat) returns (i: nat)
    requires e.Malloc? && Step(s, e, t) && k < |s.slots| && s.slots[k].size > 0
    requires forall k :: 0 <= k < |s.slots| ==> s.slots[k].size < e.want || s.slots[k].size >= SIZE_MAX
    ensures i < |s.slots| && t.slots == s.slots[i := Slot(s.slots[i].mem, 0)]
    ensures forall j: nat :: j < |s.slots| ==>
              s.slots[j].size <= s.slots[i].size && (j < i ==> s.slots[j].size < s.slots[i].size)
    ensures e.actual == e.want && t.live == (s.live - {s.slots[i].mem})[e.mem := e.want]
    ensures t.created == s.created + 1 && t.released == s.released + 1
  {
    NothingFits(s, e, t);
    assert Used(s.slots, k);
    i :| IsLargest(s.slots, |s.slots|, i) && Creates(s.Emptied(i).Released(s.slots[i].mem), e.want, e.mem, t);
    Replaced(s, e.want, e.mem, t, i);
    forall j: nat | j < |s.slots|
      ensures s.slots[j].size <= s.slots[i].size && (j < i ==> s.slots[j].size < s.slots[i].size)
    {
      LargestIs(s.slots, i, j);
    }
  }

  /** A buffer given back goes into the first empty slot, and to the device only when there is none. */
  lemma FreeMeaning(s: State, e: Event, t: State)
    requires Step(s, e, t) && e.Free?
    ensures t.held == s.held - {e.mem} && t.created == s.created
    ensures (forall i :: 0 <= i < |s.slots| ==> s.slots[i].size > 0) ==>
              t.slots == s.slots && t.live == s.live - {e.mem} && t.released == s.released + 1
    ensures forall i: nat :: i < |s.slots| && s.slots[i].size == 0 && (forall j :: 0 <= j < i ==> Used(s.slots, j)) ==>
              t.slots == s.slots[i := Slot(e.mem, e.size)] && t.live == s.live && t.released == s.released
  {
    forall i: nat | i < |s.slots| && s.slots[i].size == 0 && (forall j :: 0 <= j < i ==> Used(s.slots, j))
      ensures t.slots == s.slots[i := Slot(e.mem, e.size)] && t.live == s.live && t.released == s.released
    {
      assert !Used(s.slots, i);
      var k :| 0 <= k < |s.slots| && !Used(s.slots, k) && (forall j :: 0 <= j < k ==> Used(s.slots, j)) &&
               t == s.(slots := s.slots[k := Slot(e.mem, e.size)], held := s.held - {e.mem});
      assert k == i;
    }
    assert forall i :: 0 <= i < |s.slots| && s.slots[i].size > 0 ==> Used(s.slots, i);
  }

  // ---------------------------------------------------------------- the program

  function SmallestSize(slots: seq<Slot>, best: int): nat {
    if 0 <= best < |slots| then slots[best].size else SIZE_MAX
  }

  function LargestSize(slots: seq<Slot>, worst: int): nat {
    if 0 <= worst < |slots| then slots[worst].size else 0
  }

  /** The best slot among the first `n` and its size; -1 when none fits. */
  ghost predicate Found(slots: seq<Slot>, n: nat, want: nat, best: int, size: nat) {
    && size == SmallestSize(slots, best)
    && if best == -1 then forall j :: j < n ==> !Fits(slots, want, j) else IsBest(slots, n, want, best)
  }

  /** The largest slot among the first `n` and its size; -1 when none is used. */
  ghost predicate FoundLargest(slots: seq<Slot>, n: nat, worst: int, size: nat) {
    && size == LargestSize(slots, worst)
    && if worst == -1 then forall j :: j < n ==> !Used(slots, j) else IsLargest(slots, n, worst)
  }

  class Pool {
    var slots: array<Slot>
    ghost var live: map<Mem, nat>
    ghost var held: set<Mem>
    ghost var created: nat
    ghost var released: nat

    ghost function Now(): State
      reads this, slots
    {
      State(slots[..], live, held, created, released)
    }

    ghost predicate Valid()
      reads this, slots
    {
      slots.Length == SLOTS && Now().Valid()
    }

    constructor ()
      ensures Valid() && fresh(slots) && Now().held == {} && Now().live == map[] && Now().created == 0
    {
      slots := new Slot[SLOTS](_ => Slot(0, 0));
      live, held, created, released := map[], {}, 0, 0;
    }

    /** The search of malloc: the smallest slot that fits and the largest used slot, -1 where there is none. */
    method Search(want: nat) returns (best: int, worst: int)
      requires Valid()
      ensures Found(slots[..], SLOTS, want, best, SmallestSize(slots[..], best))
      ensures FoundLargest(slots[..], SLOTS, worst, LargestSize(slots[..], worst))
    {
      best, worst := -1, -1;
      var bestSize, worstSize := SIZE_MAX, 0;
      ghost var now := slots[..];
      for i := 0 to SLOTS
        invariant Found(now, i, want, best, bestSize) && FoundLargest(now, i, worst, worstSize)
      {
        var b := slots[i];
        assert b == now[i];
        if b.size > 0 && b.size >= want && b.size < bestSize {
          best, bestSize := i, b.size;
        }
        if b.size > 0 && b.size > worstSize {
          worst, worstSize := i, b.size;
        }
      }
    }

    /** The device releases buffer `m`. */
    ghost method ReleaseMem(m: Mem)
      modifies this`live, this`held, this`released
      ensures Now() == old(Now()).Released(m)
    {
      live, held, released := live - {m}, held - {m}, released + 1;
    }

    /** The device makes a buffer `m` of `want` bytes. */
    ghost method CreateMem(m: Mem, want: nat)
      requires m !in live
      modifies this`live, this`held, this`created
      ensures Creates(old(Now()), want, m, Now())
    {
      live, held, created := live[m := want], held + {m}, created + 1;
    }

    /**
     ggml_cl_pool_malloc. `handle` is the buffer the device would answer with: any that does not exist at
     that point, so possibly the one just released.
     */
    method Malloc(want: nat, handle: Mem) returns (mem: Mem, actual: nat)
      requires Valid() && 0 < want <= SIZE_MAX
      requires handle in live ==> exists i :: IsLargest(slots[..], SLOTS, i) && slots[i].mem == handle
      modifies this`live, this`held, this`created, this`released, slots
      ensures Valid() && Step(old(Now()), Event.Malloc(want, mem, actual), Now())
    {
      ghost var before := Now();
      var best, worst := Search(want);
      if best != -1 {
        mem, actual := slots[best].mem, slots[best].size;
        slots[best] := slots[best].(size := 0);
        held := held + {mem};
        assert Now() == before.Emptied(best).(held := before.held + {mem});
        assert Reuses(before, want, mem, actual, Now());
      } else {
        if worst != -1 {
          var gone := slots[worst].mem;
          assert forall i :: IsLargest(before.slots, SLOTS, i) ==> i == worst;
          slots[worst] := slots[worst].(size := 0);
          assert Now() == before.Emptied(worst);
          ReleaseMem(gone);
        }
        mem, actual := handle, want;
        CreateMem(mem, want);
        assert Replaces(before, want, mem, Now());
      }
      StepKeepsValid(before, Event.Malloc(want, mem, actual), Now());
    }

    /** ggml_cl_pool_free, by the holder of the buffer and with the size malloc reported. */
    method Free(mem: Mem, size: nat)
      requires Valid() && mem in held && live[mem] == size
      modifies this`live, this`held, this`released, slots
      ensures Valid() && Step(old(Now()), Event.Free(mem, size), Now())
    {
      ghost var before := Now();
      for i := 0 to SLOTS
        invariant Now() == before && forall j :: 0 <= j < i ==> Used(slots[..], j)
      {
        if slots[i].size == 0 {
          slots[i] := Slot(mem, size);
          held := held - {mem};
          assert Now() == before.(slots := before.slots[i := Slot(mem, size)], held := before.held - {mem});
          StepKeepsValid(before, Event.Free(mem, size), Now());
          return;
        }
      }
      ReleaseMem(mem);
      StepKeepsValid(before, Event.Free(mem, size), Now());
    }
  }
}
