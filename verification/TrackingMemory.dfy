// Memory accounting under concurrent calls: libjxl/tools/tracking_memory_manager.{h,cc}.
module TrackingMemory {
  import opened Bits

  type Address = nat
  type ThreadId = nat

  // The counters and the map; a cap of 0 means no cap.
  datatype Manager = Manager(
    cap: uint64, totalCap: uint64, allocations: map<Address, nat>,
    bytesInUse: uint64, numAllocations: int, seenOom: bool,
    maxBytesInUse: uint64, totalAllocations: nat, totalBytesAllocated: uint64)

  // ---------------------------------------------------------------------
  // The critical sections, as functions of the state they lock.

  // First section of Alloc: accounting, or an out-of-memory answer.
  function Account(m: Manager, size: uint64): (Manager, bool) {
    var newTotal := (m.totalBytesAllocated + size) % TWO_TO_64;
    var newBytesInUse := (m.bytesInUse + size) % TWO_TO_64;
    if newTotal < size || (m.totalCap != 0 && newTotal > m.totalCap) then
      (m.(totalBytesAllocated := m.totalCap, seenOom := true), false)
    else if newBytesInUse < size || (m.cap != 0 && newBytesInUse > m.cap) then
      (m.(seenOom := true), false)
    else
      (m.(numAllocations := m.numAllocations + 1, totalAllocations := m.totalAllocations + 1,
          bytesInUse := newBytesInUse,
          maxBytesInUse := if newBytesInUse > m.maxBytesInUse then newBytesInUse else m.maxBytesInUse,
          totalBytesAllocated := newTotal), true)
  }

  // The total would need more than 64 bits, or pass its cap.
  predicate TotalFails(m: Manager, size: uint64) {
    var newTotal := m.totalBytesAllocated + size;
    newTotal >= TWO_TO_64 || (m.totalCap != 0 && newTotal > m.totalCap)
  }

  // A call is granted exactly if the total and the bytes in use need no more than
  // 64 bits and stay within their caps. Then all counts grow, without
  // wrap-around; a refusal is remembered, and leaves the bytes in use alone.
  lemma AccountIsExact(m: Manager, size: uint64)
    ensures var (n, ok) := Account(m, size);
      && ok == (!TotalFails(m, size) && m.bytesInUse + size < TWO_TO_64
                && (m.cap == 0 || m.bytesInUse + size <= m.cap))
      && n.bytesInUse as int == m.bytesInUse + (if ok then size else 0)
      && n.numAllocations == m.numAllocations + (if ok then 1 else 0)
      && n.totalAllocations == m.totalAllocations + (if ok then 1 else 0)
      && n.seenOom == (m.seenOom || !ok)
      && n.allocations == m.allocations && n.cap == m.cap && n.totalCap == m.totalCap
      && n.totalBytesAllocated as int
         == (if ok then m.totalBytesAllocated + size
             else if TotalFails(m, size) then m.totalCap else m.totalBytesAllocated)
      && (ok && m.cap != 0 ==> n.bytesInUse <= m.cap)
      && (m.totalCap != 0 && m.totalBytesAllocated <= m.totalCap ==> n.totalBytesAllocated <= m.totalCap)
      && n.maxBytesInUse == if ok && n.bytesInUse > m.maxBytesInUse then n.bytesInUse else m.maxBytesInUse
  {
  }

  function Insert(m: Manager, a: Address, size: nat): Manager {
    m.(allocations := m.allocations[a := size])
  }

  function Deaccount(m: Manager, size: nat): Manager {
    m.(numAllocations := m.numAllocations - 1, bytesInUse := (m.bytesInUse - size) % TWO_TO_64)
  }

  function Rollback(m: Manager, size: nat): Manager {
    Deaccount(m.(seenOom := true), size)
  }

  function Erase(m: Manager, a: Address): Manager {
    m.(allocations := m.allocations - {a})
  }

  function Cleared(m: Manager): Manager {
    m.(seenOom := false, maxBytesInUse := 0, totalAllocations := 0, totalBytesAllocated := 0)
  }

  // The object itself: each method is one critical section.
  class TrackingMemoryManager {
    const cap: uint64
    const totalCap: uint64
    var allocations: map<Address, nat>
    var bytesInUse: uint64
    var numAllocations: int
    var seenOom: bool
    var maxBytesInUse: uint64
    var totalAllocations: nat
    var totalBytesAllocated: uint64

    ghost function View(): Manager
      reads this
    {
      Manager(cap, totalCap, allocations, bytesInUse, numAllocations, seenOom, maxBytesInUse, totalAllocations,
              totalBytesAllocated)
    }

    constructor (cap: uint64, totalCap: uint64)
      ensures View() == Start(cap, totalCap)
    {
      this.cap, this.totalCap := cap, totalCap;
      allocations, bytesInUse, numAllocations, seenOom := map[], 0, 0, false;
      maxBytesInUse, totalAllocations, totalBytesAllocated := 0, 0, 0;
    }

    method AllocAccount(size: uint64) returns (ok: bool)
      modifies this
      ensures (View(), ok) == Account(old(View()), size)
    {
      var newTotal := (totalBytesAllocated + size) % TWO_TO_64;
      if newTotal < size || (totalCap != 0 && newTotal > totalCap) {
        totalBytesAllocated := totalCap;
        seenOom := true;
        return false;
      }
      var newBytesInUse := (bytesInUse + size) % TWO_TO_64;
      if newBytesInUse < size || (cap != 0 && newBytesInUse > cap) {
        seenOom := true;
        return false;
      }
      numAllocations := numAllocations + 1;
      totalAllocations := totalAllocations + 1;
      bytesInUse := newBytesInUse;
      if newBytesInUse > maxBytesInUse {
        maxBytesInUse := newBytesInUse;
      }
      totalBytesAllocated := newTotal;
      return true;
    }

    method AllocInsert(a: Address, size: nat)
      modifies this
      ensures View() == Insert(old(View()), a, size)
    {
      allocations := allocations[a := size];
    }

    method AllocRollback(size: nat)
      modifies this
      ensures View() == Rollback(old(View()), size)
    {
      seenOom := true;
      numAllocations := numAllocations - 1;
      bytesInUse := (bytesInUse - size) % TWO_TO_64;
    }

    method FreeErase(a: Address) returns (found: bool, size: nat)
      modifies this
      ensures found == (a in old(allocations)) && (found ==> size == old(allocations)[a])
      ensures View() == Erase(old(View()), a)
    {
      found, size := a in allocations, 0;
      if found {
        size := allocations[a];
      }
      allocations := allocations - {a};
    }

    method FreeDeaccount(size: nat)
      modifies this
      ensures View() == Deaccount(old(View()), size)
    {
      numAllocations := numAllocations - 1;
      bytesInUse := (bytesInUse - size) % TWO_TO_64;
    }

    // Takes no lock; meant for a moment when no call is in progress.
    method Reset() returns (ok: bool)
      modifies this
      ensures ok == Resettable(old(View()))
      ensures View() == if ok then Cleared(old(View())) else old(View())
    {
      if numAllocations != 0 {
        return false;
      }
      if allocations != map[] {
        return false;
      }
      if bytesInUse != 0 {
        return false;
      }
      seenOom := false;
      maxBytesInUse := 0;
      totalAllocations := 0;
      totalBytesAllocated := 0;
      return true;
    }
  }

  function Start(cap: uint64, totalCap: uint64): Manager {
    Manager(cap, totalCap, map[], 0, 0, false, 0, 0, 0)
  }

  predicate Resettable(m: Manager) {
    m.numAllocations == 0 && m.allocations == map[] && m.bytesInUse == 0
  }

  // ---------------------------------------------------------------------
  // Threads inside Alloc and Free, between critical sections.

  datatype Pc =
    | Accounted(size: nat)                // Alloc, before the inner allocation
    | Obtained(size: nat, addr: Address)  // Alloc, before the insertion
    | Failed(size: nat)                   // Alloc, before the rollback
    | Erased(addr: Address, size: nat)    // Free, before the de-accounting
    | Deaccounted(addr: Address)          // Free, before the inner free

  // What became of a call of Alloc. Refused for good: by the total, not only by
  // the bytes in use. A granted call can still be undone.
  datatype Event = Grant(size: nat) | Refusal(size: nat, forGood: bool) | Undone(size: nat)

  // The manager with its threads, the addresses that the inner allocator has
  // handed out, the results that clients hold, and, since the last reset, every
  // value of bytes in use and what became of all calls of Alloc.
  datatype World = World(
    m: Manager, threads: map<ThreadId, Pc>, inner: set<Address>, held: set<Address>, history: seq<nat>,
    log: seq<Event>)

  datatype Step =
    | AllocBegin(t: ThreadId, size: uint64)
    | InnerAlloc(t: ThreadId, a: Address)
    | InnerFail(t: ThreadId)
    | AllocInsert(t: ThreadId)
    | AllocRollback(t: ThreadId)
    | FreeBegin(t: ThreadId, a: Address)
    | FreeDeaccount(t: ThreadId)
    | InnerFree(t: ThreadId)
    | Reset

  // The inner allocator returns an address that is not in use; clients free
  // only what they hold, and reset only when no call is in progress.
  predicate Enabled(w: World, s: Step) {
    match s
    case AllocBegin(t, size) => t !in w.threads
    case InnerAlloc(t, a) => t in w.threads && w.threads[t].Accounted? && a !in w.inner
    case InnerFail(t) => t in w.threads && w.threads[t].Accounted?
    case AllocInsert(t) => t in w.threads && w.threads[t].Obtained?
    case AllocRollback(t) => t in w.threads && w.threads[t].Failed?
    case FreeBegin(t, a) => t !in w.threads && a in w.held
    case FreeDeaccount(t) => t in w.threads && w.threads[t].Erased?
    case InnerFree(t) => t in w.threads && w.threads[t].Deaccounted?
    case Reset => w.threads == map[]
  }

  function Logged(w: World): World {
    w.(history := w.history + [w.m.bytesInUse])
  }

  function Next(w: World, s: Step): World
    requires Enabled(w, s)
  {
    match s
    case AllocBegin(t, size) =>
      var (m, ok) := Account(w.m, size);
      var event := if ok then Grant(size) else Refusal(size, TotalFails(w.m, size));
      Logged(w.(m := m, threads := if ok then w.threads[t := Accounted(size)] else w.threads, log := w.log + [event]))
    case InnerAlloc(t, a) =>
      w.(threads := w.threads[t := Obtained(w.threads[t].size, a)], inner := w.inner + {a})
    case InnerFail(t) =>
      w.(threads := w.threads[t := Failed(w.threads[t].size)])
    case AllocInsert(t) =>
      var pc := w.threads[t];
      w.(m := Insert(w.m, pc.addr, pc.size), threads := w.threads - {t}, held := w.held + {pc.addr})
    case AllocRollback(t) =>
      var size := w.threads[t].size;
      Logged(w.(m := Rollback(w.m, size), threads := w.threads - {t}, log := w.log + [Undone(size)]))
    case FreeBegin(t, a) =>
      var pc := if a in w.m.allocations then Erased(a, w.m.allocations[a]) else Deaccounted(a);
      w.(m := Erase(w.m, a), threads := w.threads[t := pc], held := w.held - {a})
    case FreeDeaccount(t) =>
      var pc := w.threads[t];
      Logged(w.(m := Deaccount(w.m, pc.size), threads := w.threads[t := Deaccounted(pc.addr)]))
    case InnerFree(t) =>
      w.(threads := w.threads - {t}, inner := w.inner - {w.threads[t].addr})
    case Reset =>
      if Resettable(w.m) then w.(m := Cleared(w.m), history := [0], log := []) else w
  }

  // ---------------------------------------------------------------------
  // Totals.

  ghost function Total(m: map<nat, nat>): nat {
    if m == map[] then 0 else var k :| k in m; m[k] + Total(m - {k})
  }

  lemma {:induction false} TotalRemove(m: map<nat, nat>, k: nat)
    requires k in m
    ensures Total(m) == m[k] + Total(m - {k})
    decreases m
  {
    var j :| j in m && Total(m) == m[j] + Total(m - {j});
    if j != k {
      TotalRemove(m - {j}, k);
      TotalRemove(m - {k}, j);
      assert m - {j} - {k} == m - {k} - {j};
    }
  }

  lemma TotalUpdate(m: map<nat, nat>, k: nat, v: nat)
    ensures Total(m[k := v]) == Total(m - {k}) + v
    ensures k in m ==> Total(m[k := v]) == Total(m) - m[k] + v
    ensures k !in m ==> Total(m[k := v]) == Total(m) + v
  {
    TotalRemove(m[k := v], k);
    assert m[k := v] - {k} == m - {k};
    if k in m {
      TotalRemove(m, k);
    } else {
      assert m - {k} == m;
    }
  }

  // Bytes that a thread keeps accounted, beyond the map.
  function Weight(pc: Pc): nat {
    match pc
    case Accounted(size) => size
    case Obtained(size, a) => size
    case Failed(size) => size
    case Erased(a, size) => size
    case Deaccounted(a) => 0
  }

  function Counts(pc: Pc): nat {
    if pc.Deaccounted? then 0 else 1
  }

  ghost function Weights(threads: map<ThreadId, Pc>): map<nat, nat> {
    map t | t in threads :: Weight(threads[t])
  }

  ghost function Pending(threads: map<ThreadId, Pc>): map<nat, nat> {
    map t | t in threads :: Counts(threads[t])
  }

  lemma ThreadUpdate(threads: map<ThreadId, Pc>, t: ThreadId, pc: Pc)
    ensures Total(Weights(threads[t := pc]))
         == Total(Weights(threads)) - (if t in threads then Weight(threads[t]) else 0) + Weight(pc)
    ensures Total(Pending(threads[t := pc]))
         == Total(Pending(threads)) - (if t in threads then Counts(threads[t]) else 0) + Counts(pc)
  {
    hide Total, Weight, Counts;
    assert Weights(threads[t := pc]) == Weights(threads)[t := Weight(pc)];
    assert Pending(threads[t := pc]) == Pending(threads)[t := Counts(pc)];
    TotalUpdate(Weights(threads), t, Weight(pc));
    TotalUpdate(Pending(threads), t, Counts(pc));
  }

  lemma ThreadRemove(threads: map<ThreadId, Pc>, t: ThreadId)
    requires t in threads
    ensures Total(Weights(threads)) == Weight(threads[t]) + Total(Weights(threads - {t}))
    ensures Total(Pending(threads)) == Counts(threads[t]) + Total(Pending(threads - {t}))
  {
    TotalRemove(Weights(threads), t);
    TotalRemove(Pending(threads), t);
    assert Weights(threads) - {t} == Weights(threads - {t});
    assert Pending(threads) - {t} == Pending(threads - {t});
  }

  // ---------------------------------------------------------------------
  // Invariants.

  // The counters are the totals over the map and over the calls in progress
  // whose bytes are accounted but not in the map.
  ghost predicate Conserved(w: World) {
    && w.m.bytesInUse == Total(w.m.allocations) + Total(Weights(w.threads))
    && w.m.numAllocations == |w.m.allocations| + Total(Pending(w.threads))
  }

  predicate HasAddress(pc: Pc) {
    pc.Obtained? || pc.Erased? || pc.Deaccounted?
  }

  ghost predicate OffMap(w: World, t: ThreadId) {
    t in w.threads && HasAddress(w.threads[t]) ==> w.threads[t].addr in w.inner && w.threads[t].addr !in w.held
  }

  ghost predicate Apart(w: World, t: ThreadId, u: ThreadId) {
    t in w.threads && u in w.threads && t != u && HasAddress(w.threads[t]) && HasAddress(w.threads[u]) ==>
      w.threads[t].addr != w.threads[u].addr
  }

  // The map holds exactly the clients' results; every address is either there
  // or with one thread, and is in use with the inner allocator.
  ghost predicate Separate(w: World) {
    && w.held == w.m.allocations.Keys && w.held <= w.inner
    && (forall t :: OffMap(w, t))
    && (forall t, u :: Apart(w, t, u))
  }

  ghost function Highest(h: seq<nat>): nat {
    if h == [] then 0
    else if h[|h| - 1] > Highest(h[..|h| - 1]) then h[|h| - 1] else Highest(h[..|h| - 1])
  }

  // The caps hold, and the high-water mark is that of the history.
  ghost predicate Bounded(w: World) {
    && (w.m.cap != 0 ==> w.m.bytesInUse <= w.m.cap)
    && (w.m.totalCap != 0 ==> w.m.totalBytesAllocated <= w.m.totalCap)
    && w.history != [] && w.history[|w.history| - 1] == w.m.bytesInUse
    && w.m.maxBytesInUse == Highest(w.history)
  }

  predicate IsFailure(e: Event) {
    e.Refusal? || e.Undone?
  }

  // The number of grants, and their bytes.
  ghost function Grants(log: seq<Event>): nat {
    if log == [] then 0 else Grants(log[..|log| - 1]) + (if log[|log| - 1].Grant? then 1 else 0)
  }

  ghost function GrantedBytes(log: seq<Event>): nat {
    if log == [] then 0
    else GrantedBytes(log[..|log| - 1]) + (if log[|log| - 1].Grant? then log[|log| - 1].size else 0)
  }

  predicate ForGood(e: Event) {
    e.Refusal? && e.forGood
  }

  // From k on, no call was refused for good; the one before was, if there is one.
  ghost predicate LastForGood(log: seq<Event>, k: nat) {
    && k <= |log| && (k == 0 || ForGood(log[k - 1])) && forall i: nat | k <= i < |log| :: !ForGood(log[i])
  }

  // The statistics: whether a call failed, how many were granted, and the bytes
  // granted, which a refusal for good sets back to the total cap.
  ghost predicate Counted(w: World) {
    && (w.m.seenOom <==> exists e :: e in w.log && IsFailure(e))
    && w.m.totalAllocations == Grants(w.log)
    && forall k: nat | k <= |w.log| && LastForGood(w.log, k) ::
         w.m.totalBytesAllocated as int == (if k == 0 then 0 else w.m.totalCap) + GrantedBytes(w.log[k..])
  }

  ghost predicate Inv(w: World) {
    Conserved(w) && Separate(w) && Bounded(w) && Counted(w)
  }

  lemma {:induction false} LastForGoodExists(log: seq<Event>) returns (k: nat)
    ensures LastForGood(log, k)
  {
    if log == [] || ForGood(log[|log| - 1]) {
      k := |log|;
    } else {
      k := LastForGoodExists(log[..|log| - 1]);
    }
  }

  lemma LogPush(log: seq<Event>, e: Event)
    ensures Grants(log + [e]) == Grants(log) + (if e.Grant? then 1 else 0)
    ensures GrantedBytes(log + [e]) == GrantedBytes(log) + (if e.Grant? then e.size else 0)
    ensures (exists x :: x in log + [e] && IsFailure(x)) <==> (exists x :: x in log && IsFailure(x)) || IsFailure(e)
  {
    assert (log + [e])[..|log|] == log;
    if IsFailure(e) {
      assert e in log + [e];
    }
    if x :| x in log && IsFailure(x) {
      assert x in log + [e];
    }
  }

  lemma PushForGood(log: seq<Event>, e: Event, k: nat)
    requires LastForGood(log + [e], k)
    ensures ForGood(e) ==> k == |log| + 1
    ensures !ForGood(e) ==> LastForGood(log, k) && (log + [e])[k..] == log[k..] + [e]
  {
    var more := log + [e];
    assert more[|log|] == e;
    if !ForGood(e) {
      assert k <= |log|;
      forall i: nat | k <= i < |log|
        ensures !ForGood(log[i])
      {
        assert more[i] == log[i];
      }
    }
  }

  // One more event, and the statistics that follow it.
  lemma CountedPush(w: World, e: Event, w': World)
    requires Counted(w) && w'.log == w.log + [e] && w'.m.totalCap == w.m.totalCap
    requires w'.m.seenOom == (w.m.seenOom || IsFailure(e))
    requires w'.m.totalAllocations == w.m.totalAllocations + (if e.Grant? then 1 else 0)
    requires w'.m.totalBytesAllocated as int
          == if ForGood(e) then w.m.totalCap else w.m.totalBytesAllocated + (if e.Grant? then e.size else 0)
    ensures Counted(w')
  {
    hide Grants, GrantedBytes, LastForGood, IsFailure, ForGood;
    LogPush(w.log, e);
    forall k: nat | k <= |w'.log| && LastForGood(w'.log, k)
      ensures w'.m.totalBytesAllocated as int
           == (if k == 0 then 0 else w'.m.totalCap) + GrantedBytes(w'.log[k..])
    {
      PushForGood(w.log, e, k);
      if ForGood(e) {
        assert w'.log[k..] == [];
        NoGrants();
      } else {
        LogPush(w.log[k..], e);
      }
    }
  }

  lemma NoGrants()
    ensures GrantedBytes([]) == 0
  {
  }

  lemma CountedKept(w: World, s: Step)
    requires Counted(w) && Enabled(w, s)
    ensures Counted(Next(w, s))
  {
    var w' := Next(w, s);
    match s {
      case AllocBegin(t, size) =>
        AccountIsExact(w.m, size);
        CountedPush(w, w'.log[|w.log|], w');
      case AllocRollback(t) =>
        CountedPush(w, Undone(w.threads[t].size), w');
      case Reset =>
      case _ =>
        assert w'.log == w.log;
    }
  }

  // The total is known in every state: the grants since the last refusal for good.
  lemma TotalIsKnown(w: World) returns (k: nat)
    requires Counted(w)
    ensures LastForGood(w.log, k)
    ensures w.m.totalBytesAllocated as int == (if k == 0 then 0 else w.m.totalCap) + GrantedBytes(w.log[k..])
  {
    k := LastForGoodExists(w.log);
  }

  // With no refusal for good, the total is what was granted since the reset.
  lemma TotalIsGranted(w: World)
    requires Counted(w) && forall e :: e in w.log ==> !ForGood(e)
    ensures w.m.totalBytesAllocated == GrantedBytes(w.log)
  {
    assert LastForGood(w.log, 0) && w.log[0..] == w.log;
  }

  lemma HighestPush(h: seq<nat>, x: nat)
    ensures Highest(h + [x]) == if x > Highest(h) then x else Highest(h)
  {
    assert (h + [x])[..|h|] == h;
  }

  lemma HighestOfZero()
    ensures Highest([0]) == 0
  {
    HighestPush([], 0);
    assert [] + [0] == [0];
  }

  lemma {:induction false} HighestAtLeast(h: seq<nat>, i: nat)
    requires i < |h|
    ensures h[i] <= Highest(h)
  {
    if i < |h| - 1 {
      HighestAtLeast(h[..|h| - 1], i);
    }
  }

  // What a step takes from the totals is there: no subtraction wraps.
  lemma EnoughToTake(w: World, t: ThreadId)
    requires Conserved(w) && t in w.threads
    ensures Weight(w.threads[t]) <= w.m.bytesInUse && Counts(w.threads[t]) <= w.m.numAllocations
  {
    ThreadRemove(w.threads, t);
  }

  lemma AllocBeginConserves(w: World, t: ThreadId, size: uint64)
    requires Conserved(w) && Enabled(w, AllocBegin(t, size))
    ensures Conserved(Next(w, AllocBegin(t, size)))
  {
    hide Total, Weights, Pending, Account;
    AccountIsExact(w.m, size);
    ThreadUpdate(w.threads, t, Accounted(size));
  }

  lemma InnerConserves(w: World, s: Step)
    requires Conserved(w) && Enabled(w, s) && (s.InnerAlloc? || s.InnerFail? || s.InnerFree?)
    ensures Conserved(Next(w, s))
  {
    hide Total, Weights, Pending;
    match s {
      case InnerAlloc(t, a) => ThreadUpdate(w.threads, t, Obtained(w.threads[t].size, a));
      case InnerFail(t) => ThreadUpdate(w.threads, t, Failed(w.threads[t].size));
      case InnerFree(t) => ThreadRemove(w.threads, t);
    }
  }

  lemma AllocInsertConserves(w: World, t: ThreadId)
    requires Conserved(w) && Separate(w) && Enabled(w, AllocInsert(t))
    ensures Conserved(Next(w, AllocInsert(t)))
  {
    hide Total, Weights, Pending, Separate;
    var pc := w.threads[t];
    InsertIsFresh(w, t);
    ThreadRemove(w.threads, t);
    TotalUpdate(w.m.allocations, pc.addr, pc.size);
  }

  lemma AllocRollbackConserves(w: World, t: ThreadId)
    requires Conserved(w) && Enabled(w, AllocRollback(t))
    ensures Conserved(Next(w, AllocRollback(t)))
  {
    hide Total, Weights, Pending;
    EnoughToTake(w, t);
    ThreadRemove(w.threads, t);
  }

  lemma FreeBeginConserves(w: World, t: ThreadId, a: Address)
    requires Conserved(w) && Separate(w) && Enabled(w, FreeBegin(t, a))
    ensures Conserved(Next(w, FreeBegin(t, a)))
  {
    hide Total, Weights, Pending, Separate;
    FreeFinds(w, t, a);
    TotalRemove(w.m.allocations, a);
    ThreadUpdate(w.threads, t, Erased(a, w.m.allocations[a]));
  }

  lemma FreeDeaccountConserves(w: World, t: ThreadId)
    requires Conserved(w) && Enabled(w, FreeDeaccount(t))
    ensures Conserved(Next(w, FreeDeaccount(t)))
  {
    hide Total, Weights, Pending;
    EnoughToTake(w, t);
    ThreadUpdate(w.threads, t, Deaccounted(w.threads[t].addr));
  }

  lemma ConservedKept(w: World, s: Step)
    requires Conserved(w) && Separate(w) && Enabled(w, s)
    ensures Conserved(Next(w, s))
  {
    match s
    case AllocBegin(t, size) => AllocBeginConserves(w, t, size);
    case InnerAlloc(t, a) => InnerConserves(w, s);
    case InnerFail(t) => InnerConserves(w, s);
    case AllocInsert(t) => AllocInsertConserves(w, t);
    case AllocRollback(t) => AllocRollbackConserves(w, t);
    case FreeBegin(t, a) => FreeBeginConserves(w, t, a);
    case FreeDeaccount(t) => FreeDeaccountConserves(w, t);
    case InnerFree(t) => InnerConserves(w, s);
    case Reset =>
  }

  // Erasure precedes the inner free, so an insertion never overwrites an entry.
  lemma InsertIsFresh(w: World, t: ThreadId)
    requires Separate(w) && Enabled(w, AllocInsert(t))
    ensures w.threads[t].addr !in w.m.allocations
  {
    assert OffMap(w, t);
  }

  // A well-behaved free always finds its entry.
  lemma FreeFinds(w: World, t: ThreadId, a: Address)
    requires Separate(w) && Enabled(w, FreeBegin(t, a))
    ensures a in w.m.allocations
  {
  }

  lemma SeparateKept(w: World, s: Step)
    requires Separate(w) && Enabled(w, s)
    ensures Separate(Next(w, s))
  {
    var w' := Next(w, s);
    forall t
      ensures OffMap(w', t)
    {
      assert OffMap(w, t);
      if s.AllocInsert? {
        assert Apart(w, t, s.t);
      } else if s.InnerFree? {
        assert Apart(w, t, s.t);
      }
    }
    forall t, u
      ensures Apart(w', t, u)
    {
      assert Apart(w, t, u) && OffMap(w, t) && OffMap(w, u);
    }
    if s.InnerFree? {
      assert OffMap(w, s.t);
    } else if s.AllocInsert? {
      assert OffMap(w, s.t);
    }
  }

  lemma BoundedKept(w: World, s: Step)
    requires Conserved(w) && Bounded(w) && Enabled(w, s)
    ensures Bounded(Next(w, s))
  {
    hide Conserved, Highest, Counts, Account;
    var w' := Next(w, s);
    if s.AllocRollback? || s.FreeDeaccount? {
      EnoughToTake(w, s.t);
    } else if s.AllocBegin? {
      AccountIsExact(w.m, s.size);
    } else if s.Reset? {
      HighestOfZero();
    }
    HighestPush(w.history, w'.m.bytesInUse);
    HighestAtLeast(w.history, |w.history| - 1);
  }

  lemma InvKept(w: World, s: Step)
    requires Inv(w) && Enabled(w, s)
    ensures Inv(Next(w, s))
  {
    ConservedKept(w, s);
    SeparateKept(w, s);
    BoundedKept(w, s);
    CountedKept(w, s);
  }

  // ---------------------------------------------------------------------
  // Whole runs.

  function Initial(cap: uint64, totalCap: uint64): World {
    World(Start(cap, totalCap), map[], {}, {}, [0], [])
  }

  ghost predicate IsRun(w: World, steps: seq<Step>)
    decreases |steps|
  {
    steps == [] || (Enabled(w, steps[0]) && IsRun(Next(w, steps[0]), steps[1..]))
  }

  ghost function RunEnd(w: World, steps: seq<Step>): World
    requires IsRun(w, steps)
    decreases |steps|
  {
    if steps == [] then w else RunEnd(Next(w, steps[0]), steps[1..])
  }

  // In every interleaving, the counters are exact, addresses are separate, the
  // caps hold, and the high-water mark and the statistics are right.
  lemma {:induction false} RunInvariant(w: World, steps: seq<Step>)
    requires Inv(w) && IsRun(w, steps)
    ensures Inv(RunEnd(w, steps))
    decreases |steps|
  {
    if steps != [] {
      InvKept(w, steps[0]);
      RunInvariant(Next(w, steps[0]), steps[1..]);
    }
  }

  lemma ReachableInvariant(cap: uint64, totalCap: uint64, steps: seq<Step>)
    requires IsRun(Initial(cap, totalCap), steps)
    ensures Inv(RunEnd(Initial(cap, totalCap), steps))
  {
    var w := Initial(cap, totalCap);
    assert Weights(w.threads) == map[] && Pending(w.threads) == map[];
    HighestPush([], 0);
    RunInvariant(w, steps);
  }

  // When no call is in progress, a reset succeeds exactly when clients hold
  // nothing.
  lemma ResetWhenQuiet(w: World)
    requires Inv(w) && w.threads == map[]
    ensures Resettable(w.m) <==> w.held == {}
    ensures w.m.numAllocations == |w.held|
  {
    assert Weights(w.threads) == map[] && Pending(w.threads) == map[];
    if w.held == {} {
      assert w.m.allocations == map[];
    }
  }

  // Once an allocation has failed under a total cap, the cap is used up.
  ghost predicate UsedUp(m: Manager) {
    m.totalCap != 0 && m.totalBytesAllocated == m.totalCap
  }

  // After such a failure, and until a reset, every allocation of a positive
  // size fails, whatever is freed in between.
  lemma {:induction false} OutOfMemoryStays(w: World, steps: seq<Step>, size: uint64)
    requires UsedUp(w.m) && IsRun(w, steps) && Reset !in steps && size > 0
    ensures UsedUp(RunEnd(w, steps).m) && !Account(RunEnd(w, steps).m, size).1
    decreases |steps|
  {
    if steps != [] {
      assert steps[0] != Reset && Reset !in steps[1..];
      OutOfMemoryStays(Next(w, steps[0]), steps[1..], size);
    }
  }

  predicate Granted(m: Manager, size: uint64) { Account(m, size).1 }

  // A total failure uses the cap up exactly when there is a cap. Without one,
  // the total starts again from 0, and the next call is granted exactly when
  // the bytes in use allow it, as if nothing had failed.
  lemma TotalFailure(m: Manager, size: uint64, s: uint64)
    requires TotalFails(m, size)
    ensures !Granted(m, size)
    ensures UsedUp(Account(m, size).0) <==> m.totalCap != 0
    ensures m.totalCap != 0 && s > 0 ==> !Granted(Account(m, size).0, s)
    ensures m.totalCap == 0 ==> Account(m, size).0.totalBytesAllocated == 0
    ensures m.totalCap == 0 ==>
              (Granted(Account(m, size).0, s)
               <==> m.bytesInUse + s < TWO_TO_64 && (m.cap == 0 || m.bytesInUse + s <= m.cap))
  {
    AccountIsExact(m, size);
    AccountIsExact(Account(m, size).0, s);
    hide Account;
  }

  lemma {:induction false} RunPush(w: World, steps: seq<Step>, s: Step)
    requires IsRun(w, steps) && Enabled(RunEnd(w, steps), s)
    ensures IsRun(w, steps + [s]) && RunEnd(w, steps + [s]) == Next(RunEnd(w, steps), s)
    decreases |steps|
  {
    hide Enabled, Next;
    var all := steps + [s];
    if steps == [] {
      assert all[1..] == [] && IsRun(Next(w, s), []);
    } else {
      RunPush(Next(w, steps[0]), steps[1..], s);
      assert all[1..] == steps[1..] + [s];
    }
  }

  // One call of Alloc in a quiet world, up to its answer.
  function OneAlloc(t: ThreadId, size: uint64, a: Address): seq<Step> {
    [AllocBegin(t, size)] + [InnerAlloc(t, a)] + [AllocInsert(t)]
  }

  lemma AllocRuns(w: World, t: ThreadId, size: uint64, a: Address)
    requires t !in w.threads && a !in w.inner && Granted(w.m, size)
    ensures IsRun(w, OneAlloc(t, size, a))
    ensures RunEnd(w, OneAlloc(t, size, a)).m == Insert(Account(w.m, size).0, a, size)
    ensures RunEnd(w, OneAlloc(t, size, a)).threads == w.threads
  {
    hide IsRun, RunEnd, Account;
    assert IsRun(w, []) && RunEnd(w, []) == w by {
      EmptyRun(w);
    }
    assert [] + [AllocBegin(t, size)] == [AllocBegin(t, size)];
    RunPush(w, [], AllocBegin(t, size));
    RunPush(w, [AllocBegin(t, size)], InnerAlloc(t, a));
    RunPush(w, [AllocBegin(t, size)] + [InnerAlloc(t, a)], AllocInsert(t));
  }

  lemma EmptyRun(w: World)
    ensures IsRun(w, []) && RunEnd(w, []) == w
  {
  }

  // A run that gets there without a total cap: one byte is allocated, the
  // largest size fails, and one byte more is granted.
  lemma FailureForgotten(cap: uint64)
    requires cap == 0 || cap >= 2
    ensures var w, before := Initial(cap, 0), OneAlloc(0, 1, 4096);
            var after := before + [AllocBegin(0, 0xFFFF_FFFF_FFFF_FFFF)];
            && IsRun(w, before) && TotalFails(RunEnd(w, before).m, 0xFFFF_FFFF_FFFF_FFFF)
            && IsRun(w, after) && RunEnd(w, after).m.seenOom && Granted(RunEnd(w, after).m, 1)
  {
    var w, before := Initial(cap, 0), OneAlloc(0, 1, 4096);
    AllocRuns(w, 0, 1, 4096);
    hide IsRun, RunEnd, OneAlloc;
    var now := RunEnd(w, before).m;
    assert now.totalBytesAllocated == 1 && now.bytesInUse == 1 && now.totalCap == 0 && now.cap == cap;
    RunPush(w, before, AllocBegin(0, 0xFFFF_FFFF_FFFF_FFFF));
    TotalFailure(now, 0xFFFF_FFFF_FFFF_FFFF, 1);
  }
}
