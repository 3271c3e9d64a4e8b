/** `pool.c`: a pool of objects that are allocated on demand and handed out last-in first-out.

    Objects are named by the order of their allocation. */
module Pool {
  import opened Bits
  import opened Results

  type Obj = nat

  datatype PoolState = PoolState(max: nat, size: nat, free: seq<Obj>)

  /** `pool_get` on the abstract state: None when it fails. */
  function Get(s: PoolState): Option<(PoolState, Obj)> {
    if |s.free| == 0 && s.size == s.max then None
    else if |s.free| == 0 then Some((s.(size := s.size + 1), s.size))
    else Some((s.(free := s.free[..|s.free| - 1]), s.free[|s.free| - 1]))
  }

  /** `pool_release`: None when it refuses. It does not look at the object. */
  function Release(s: PoolState, x: Obj): Option<PoolState> {
    if |s.free| == s.size then None else Some(s.(free := s.free + [x]))
  }

  class ObjectPool {
    var data: array<Obj>
    var poolSize: u32
    var freeItems: u32
    const maxPoolSize: u32
    ghost var constructed: seq<Obj>  // the objects the constructor was run on

    ghost predicate Valid()
      reads this
    {
      data.Length == maxPoolSize && freeItems <= poolSize <= maxPoolSize
    }

    ghost function State(): PoolState
      requires Valid()
      reads this, data
    {
      PoolState(maxPoolSize, poolSize, data[..freeItems])
    }

    /** `pool_create` */
    constructor (maxPoolSize: u32)
      ensures Valid() && fresh(data)
      ensures State() == PoolState(maxPoolSize, 0, []) && constructed == []
    {
      this.maxPoolSize := maxPoolSize;
      poolSize, freeItems := 0, 0;
      data := new Obj[maxPoolSize];
      constructed := [];
    }

    /** `pool_get`; `*data` is only written on success. */
    method PoolGet(before: Obj) returns (status: int, x: Obj)
      requires Valid()
      modifies this`poolSize, this`freeItems, this`constructed
      ensures Valid()
      ensures match Get(old(State()))
              case None => status == -1 && x == before && State() == old(State()) && constructed == old(constructed)
              case Some((s, y)) =>
                && status == 0 && x == y && State() == s
                && constructed == old(constructed) + if s.size > old(State()).size then [y] else []
    {
      x := before;
      if freeItems == 0 && poolSize == maxPoolSize {
        return -1, x;
      } else if freeItems == 0 {
        x := poolSize;  // mem_Malloc: an object not seen before
        poolSize := poolSize + 1;
        constructed := constructed + [x];
      } else {
        x := data[freeItems - 1];
        freeItems := freeItems - 1;
      }
      status := 0;
    }

    /** `pool_release` */
    method PoolRelease(x: Obj) returns (status: int)
      requires Valid()
      modifies this`freeItems, data
      ensures Valid() && data == old(data)
      ensures match Release(old(State()), x)
              case None => status == -1 && State() == old(State())
              case Some(s) => status == 0 && State() == s
    {
      if freeItems == poolSize {
        return -1;
      }
      data[freeItems] := x;
      freeItems := freeItems + 1;
      status := 0;
    }

    /** `pool_delete`, handing `pool_get` a place for the object: the freed objects are
        exactly those on the free stack, top first, and none is allocated on the way. */
    method PoolDelete() returns (status: int, freed: seq<Obj>)
      requires Valid()
      modifies this`poolSize, this`freeItems, this`constructed
      ensures Valid() && poolSize == old(poolSize) && constructed == old(constructed)
      ensures |old(State()).free| != old(State()).size ==> status == -1 && freed == [] && State() == old(State())
      ensures |old(State()).free| == old(State()).size ==>
        status == 0 && State().free == [] && freed == Reversed(old(State()).free)
    {
      freed := [];
      if freeItems != poolSize {
        return -1, freed;
      }
      hide Reversed;
      ghost var free := State().free;
      NothingReversed(free);
      var i: u32 := 0;
      while i < poolSize
        invariant Valid() && poolSize == old(poolSize) && constructed == old(constructed)
        invariant i + freeItems == poolSize == |free|
        invariant State().free == free[..freeItems]
        invariant freed + Reversed(State().free) == Reversed(free)
        decreases poolSize - i
      {
        ReversedLast(free, freeItems);
        var got, x := PoolGet(0);
        freed := freed + [x];
        i := i + 1;
      }
      status := 0;
    }
  }

  lemma ReversedLast(s: seq<Obj>, n: nat)
    requires 0 < n <= |s|
    ensures Reversed(s[..n]) == [s[n - 1]] + Reversed(s[..n - 1])
  {
    assert s[..n][..n - 1] == s[..n - 1];
  }

  lemma NothingReversed(s: seq<Obj>)
    ensures [] + Reversed(s) == Reversed(s) && Reversed([]) == [] && s[..|s|] == s && s[..0] == []
  {}

  function Reversed(s: seq<Obj>): (r: seq<Obj>)
    ensures |r| == |s| && forall i :: 0 <= i < |s| ==> r[i] == s[|s| - 1 - i]
  {
    if |s| == 0 then [] else [s[|s| - 1]] + Reversed(s[..|s| - 1])
  }

  // ------------------------------------------------------------------- Safety

  /** With everything released, a further release is refused, whatever it hands back. */
  lemma ExtraReleaseRefused(s: PoolState, x: Obj)
    requires Partition(s, {})
    ensures Release(s, x) == None
  {
    PartitionCount(s, {});
  }

  ghost predicate Distinct(s: seq<Obj>) {
    forall i, j :: 0 <= i < j < |s| ==> s[i] != s[j]
  }

  /** The free stack and the objects handed out partition the allocated objects. */
  ghost predicate Partition(s: PoolState, out: set<Obj>) {
    && s.size <= s.max && |s.free| <= s.size
    && Distinct(s.free)
    && (forall x :: x in s.free ==> x < s.size && x !in out)
    && (forall x :: x in out ==> x < s.size)
    && (forall x :: 0 <= x < s.size ==> x in s.free || x in out)
  }

  function Upto(n: nat): (r: set<Obj>)
    ensures |r| == n && forall x :: x in r <==> 0 <= x < n
  {
    if n == 0 then {} else Upto(n - 1) + {n - 1}
  }

  function Elements(s: seq<Obj>): set<Obj> {
    set x | x in s
  }

  lemma {:induction false} DistinctCount(s: seq<Obj>)
    requires Distinct(s)
    ensures |Elements(s)| == |s|
  {
    if |s| > 0 {
      var init, x := s[..|s| - 1], s[|s| - 1];
      DistinctCount(init);
      assert Elements(s) == Elements(init) + {x};
    }
  }

  /** Free plus outstanding is the number of objects. */
  lemma PartitionCount(s: PoolState, out: set<Obj>)
    requires Partition(s, out)
    ensures |s.free| + |out| == s.size
  {
    DistinctCount(s.free);
    assert Elements(s.free) + out == Upto(s.size);
    assert Elements(s.free) !! out;
  }

  /** A get never hands out an object that somebody holds, and fails exactly when everything
      that may exist is outstanding. */
  lemma GetKeepsPartition(s: PoolState, out: set<Obj>)
    requires Partition(s, out)
    ensures Get(s).None? <==> |out| == s.max
    ensures Get(s).Some? ==> Get(s).value.1 !in out && Partition(Get(s).value.0, out + {Get(s).value.1})
  {
    PartitionCount(s, out);
    if |s.free| > 0 {
      var rest, x := s.free[..|s.free| - 1], s.free[|s.free| - 1];
      assert forall y :: y in s.free <==> y in rest || y == x;
    }
  }

  /** Releasing an outstanding object is never refused. */
  lemma ReleaseKeepsPartition(s: PoolState, out: set<Obj>, x: Obj)
    requires Partition(s, out) && x in out
    ensures Release(s, x).Some? && Partition(Release(s, x).value, out - {x})
  {
    PartitionCount(s, out);
    var s' := s.(free := s.free + [x]);
    assert forall y :: y in s'.free <==> y in s.free || y == x;
  }

  /** Gets return the released objects in reverse order and undo the releases. */
  function ReleaseAll(s: PoolState, xs: seq<Obj>): Option<PoolState> {
    if |xs| == 0 then Some(s)
    else
      var s' :- ReleaseAll(s, xs[..|xs| - 1]);
      Release(s', xs[|xs| - 1])
  }

  function GetMany(s: PoolState, n: nat): Option<(PoolState, seq<Obj>)>
    decreases n
  {
    if n == 0 then Some((s, []))
    else
      var (s', x) :- Get(s);
      var (s'', xs) :- GetMany(s', n - 1);
      Some((s'', [x] + xs))
  }

  lemma {:induction false} LastInFirstOut(s: PoolState, xs: seq<Obj>)
    requires ReleaseAll(s, xs).Some?
    ensures GetMany(ReleaseAll(s, xs).value, |xs|) == Some((s, Reversed(xs)))
  {
    if |xs| > 0 {
      var init, x := xs[..|xs| - 1], xs[|xs| - 1];
      var s' := ReleaseAll(s, init).value;
      var s'' := ReleaseAll(s, xs).value;
      assert s''.free[..|s''.free| - 1] == s'.free;
      assert Get(s'') == Some((s', x));
      LastInFirstOut(s, init);
    }
  }

  // ------------------------------------------------------------------ History

  datatype Op = GetOp | ReleaseOp(x: Obj)

  /** A run so far: the pool, what is outstanding, the largest number ever outstanding at
      once, and the constructor calls. */
  datatype History = History(state: PoolState, out: set<Obj>, peak: nat, constructed: seq<Obj>)

  predicate Allowed(h: History, op: Op) {
    op.ReleaseOp? ==> op.x in h.out
  }

  function Max(a: nat, b: nat): nat { if a < b then b else a }

  function Apply(h: History, op: Op): History {
    match op
    case GetOp =>
      (match Get(h.state)
       case None => h
       case Some((s, x)) =>
         History(s, h.out + {x}, Max(h.peak, |h.out + {x}|),
                 h.constructed + if s.size > h.state.size then [x] else []))
    case ReleaseOp(x) =>
      (match Release(h.state, x)
       case None => h
       case Some(s) => h.(state := s, out := h.out - {x}))
  }

  /** The run of a sequence of operations; None if an object is released that nobody holds. */
  function Play(max: nat, ops: seq<Op>): Option<History> {
    if |ops| == 0 then Some(History(PoolState(max, 0, []), {}, 0, []))
    else
      var h :- Play(max, ops[..|ops| - 1]);
      if Allowed(h, ops[|ops| - 1]) then Some(Apply(h, ops[|ops| - 1])) else None
  }

  ghost predicate HistoryInv(max: nat, h: History) {
    && h.state.max == max && Partition(h.state, h.out)
    && h.state.size == h.peak <= max
    && |h.constructed| == h.peak && forall i :: 0 <= i < h.peak ==> h.constructed[i] == i
  }

  lemma HistoryStep(max: nat, h: History, op: Op)
    requires HistoryInv(max, h) && Allowed(h, op)
    ensures HistoryInv(max, Apply(h, op))
  {
    PartitionCount(h.state, h.out);
    match op
    case GetOp =>
      GetKeepsPartition(h.state, h.out);
      if Get(h.state).Some? {
        PartitionCount(Get(h.state).value.0, h.out + {Get(h.state).value.1});
      }
    case ReleaseOp(x) =>
      ReleaseKeepsPartition(h.state, h.out, x);
  }

  /** Over every disciplined run the pool holds exactly as many objects as were ever needed at
      once, each constructed exactly once, and a get fails exactly when the maximum is out. */
  lemma {:induction false} PoolHistory(max: nat, ops: seq<Op>)
    requires Play(max, ops).Some?
    ensures HistoryInv(max, Play(max, ops).value)
    ensures Get(Play(max, ops).value.state).None? <==> |Play(max, ops).value.out| == max
  {
    if |ops| > 0 {
      PoolHistory(max, ops[..|ops| - 1]);
      HistoryStep(max, Play(max, ops[..|ops| - 1]).value, ops[|ops| - 1]);
    }
    GetKeepsPartition(Play(max, ops).value.state, Play(max, ops).value.out);
  }

  /** The drain of a pool with nothing outstanding frees every object exactly once. */
  lemma DrainVisitsAll(s: PoolState, out: set<Obj>)
    requires Partition(s, out)
    ensures |s.free| == s.size <==> out == {}
    ensures out == {} ==> Distinct(Reversed(s.free)) && Elements(Reversed(s.free)) == Upto(s.size)
  {
    PartitionCount(s, out);
    if out == {} {
      forall x | 0 <= x < s.size ensures x in Reversed(s.free) {
        assert x in s.free;
        var i :| 0 <= i < |s.free| && s.free[i] == x;
        assert Reversed(s.free)[|s.free| - 1 - i] == x;
      }
    }
  }
}
