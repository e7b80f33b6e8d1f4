/**
 The re-entrant read / single-write lock of backends/redland/multimutex.cpp.

 Every statement of lockForRead, lockForWrite and unlock is one atomic step of one thread;
 any number of threads may be interleaved in any order.  A run is a sequence of actions:
 an idle thread invokes an operation, or a busy thread executes its next statement.
 */
module MultiMutex {
  import opened Wrappers

  type Tid = nat

  // The statement a thread executes next, with its line in multimutex.cpp.
  datatype Pc =
    | Idle
    | ReadLockGuard        // 61  lockMutex.lock()
    | ReadTestOwner        // 62  if ( lockingThread == currentThread )
    | ReadNest             // 63  ++lockCnt
    | ReadNestDone         // 64  lockMutex.unlock()
    | ReadUnlockGuard      // 67  lockMutex.unlock()
    | ReadLockReaders      // 68  readMutex.lock()
    | ReadLockMain         // 69  mainMutex.lockForRead()
    | ReadRegister         // 70  lockingThread = currentThread   (lockMutex not held)
    | ReadCount            // 71  ++lockCnt                       (lockMutex not held)
    | WriteLockMain        // 78  mainMutex.lockForWrite(), first attempt
    | WriteWait            // 78  queued inside mainMutex.lockForWrite()
    | WriteFlag            // 79  lockedForWrite = true           (lockMutex not held)
    | UnlockGuard          // 85  lockMutex.lock()
    | UnlockTestWrite      // 86  if ( lockedForWrite )
    | UnlockClearWrite     // 87  lockedForWrite = false
    | UnlockMainWrite      // 88  mainMutex.unlock()
    | UnlockTestOwner      // 91  else if ( lockingThread == currentThread )
    | UnlockCount          // 92  if ( --lockCnt == 0 )
    | UnlockDeregister     // 93  lockingThread = 0
    | UnlockMainRead       // 94  mainMutex.unlock()
    | UnlockReaders        // 95  readMutex.unlock()
    | UnlockDone           // 98  lockMutex.unlock()

  // What a thread holds, as its own calls see it: the number of read locks and the write lock.
  datatype Thread = Thread(pc: Pc, depth: nat, writing: bool)

  // The locks and the fields of MultiMutex::Private.
  datatype Lock = Lock(
    guard: Option<Tid>,          // lockMutex
    readMutex: Option<Tid>,
    access: int,                 // mainMutex: the number of readers, or -1 for a writer
    lockingThread: Option<Tid>,
    lockCnt: int,
    lockedForWrite: bool)

  datatype State = State(threads: seq<Thread>, lock: Lock)

  datatype Operation = LockForRead | LockForWrite | Unlock

  datatype Action = Invoke(t: Tid, op: Operation) | Run(t: Tid)

  // writersFirst: a waiting writer keeps new readers out of the QReadWriteLock.
  // disciplined: threads unlock only what they hold and never mix read and write locks.
  datatype Config = Config(writersFirst: bool, disciplined: bool)

  const FRESH_LOCK := Lock(None, None, 0, None, 0, false)
  const FRESH_THREAD := Thread(Idle, 0, false)

  function Initial(n: nat): State {
    State(seq(n, _ => FRESH_THREAD), FRESH_LOCK)
  }

  // ----- The transition system -----

  // QReadWriteLock::unlock() ends the write lock or one read lock, whoever calls it.
  function Released(access: int): int {
    if access > 0 then access - 1 else if access < 0 then access + 1 else 0
  }

  /** The effect of the statement that thread t, in local state th, is at. */
  function Statement(l: Lock, t: Tid, th: Thread): (Lock, Thread) {
    match th.pc
    case Idle => (l, th)
    case ReadLockGuard => (l.(guard := Some(t)), th.(pc := ReadTestOwner))
    case ReadTestOwner => (l, th.(pc := if l.lockingThread == Some(t) then ReadNest else ReadUnlockGuard))
    case ReadNest => (l.(lockCnt := l.lockCnt + 1), th.(pc := ReadNestDone, depth := th.depth + 1))
    case ReadNestDone => (l.(guard := None), th.(pc := Idle))
    case ReadUnlockGuard => (l.(guard := None), th.(pc := ReadLockReaders))
    case ReadLockReaders => (l.(readMutex := Some(t)), th.(pc := ReadLockMain))
    case ReadLockMain => (l.(access := l.access + 1), th.(pc := ReadRegister))
    case ReadRegister => (l.(lockingThread := Some(t)), th.(pc := ReadCount))
    case ReadCount => (l.(lockCnt := l.lockCnt + 1), th.(pc := Idle, depth := th.depth + 1))
    case WriteLockMain =>
      if l.access == 0 then (l.(access := -1), th.(pc := WriteFlag)) else (l, th.(pc := WriteWait))
    case WriteWait => (l.(access := -1), th.(pc := WriteFlag))
    case WriteFlag => (l.(lockedForWrite := true), th.(pc := Idle, writing := true))
    case UnlockGuard => (l.(guard := Some(t)), th.(pc := UnlockTestWrite))
    case UnlockTestWrite => (l, th.(pc := if l.lockedForWrite then UnlockClearWrite else UnlockTestOwner))
    case UnlockClearWrite => (l.(lockedForWrite := false), th.(pc := UnlockMainWrite))
    case UnlockMainWrite => (l.(access := Released(l.access)), th.(pc := UnlockDone, writing := false))
    case UnlockTestOwner => (l, th.(pc := if l.lockingThread == Some(t) then UnlockCount else UnlockDone))
    case UnlockCount =>
      (l.(lockCnt := l.lockCnt - 1),
       th.(pc := if l.lockCnt == 1 then UnlockDeregister else UnlockDone,
           depth := if th.depth > 0 then th.depth - 1 else 0))
    case UnlockDeregister => (l.(lockingThread := None), th.(pc := UnlockMainRead))
    case UnlockMainRead => (l.(access := Released(l.access)), th.(pc := UnlockReaders))
    case UnlockReaders => (l.(readMutex := None), th.(pc := UnlockDone))
    case UnlockDone => (l.(guard := None), th.(pc := Idle))
  }

  ghost predicate WriterWaiting(threads: seq<Thread>) {
    exists w: Tid :: w < |threads| && threads[w].pc.WriteWait?
  }

  // Only the four lock calls can block.
  predicate Passable(l: Lock, pc: Pc, readersHeldBack: bool) {
    match pc
    case Idle => false
    case ReadLockGuard => l.guard.None?
    case UnlockGuard => l.guard.None?
    case ReadLockReaders => l.readMutex.None?
    case ReadLockMain => l.access >= 0 && !readersHeldBack
    case WriteWait => l.access == 0
    case _ => true
  }

  /** True if thread t is at a statement it can execute now. */
  ghost predicate Enabled(s: State, t: Tid, config: Config)
    requires t < |s.threads|
  {
    Passable(s.lock, s.threads[t].pc, config.writersFirst && WriterWaiting(s.threads))
  }

  predicate Disciplined(th: Thread, op: Operation) {
    match op
    case LockForRead => !th.writing
    case LockForWrite => !th.writing && th.depth == 0
    case Unlock => th.writing || th.depth > 0
  }

  function Entry(op: Operation): Pc {
    match op
    case LockForRead => ReadLockGuard
    case LockForWrite => WriteLockMain
    case Unlock => UnlockGuard
  }

  ghost predicate Allowed(s: State, a: Action, config: Config) {
    && a.t < |s.threads|
    && match a
       case Invoke(t, op) => s.threads[t].pc.Idle? && (config.disciplined ==> Disciplined(s.threads[t], op))
       case Run(t) => Enabled(s, t, config)
  }

  function Apply(s: State, a: Action): State
    requires a.t < |s.threads|
  {
    var th := s.threads[a.t];
    match a
    case Invoke(t, op) => State(s.threads[t := th.(pc := Entry(op))], s.lock)
    case Run(t) => var (l', th') := Statement(s.lock, t, th); State(s.threads[t := th'], l')
  }

  /** A legal run of n threads on a new lock, and the state it reaches. */
  ghost predicate Legal(n: nat, run: seq<Action>, config: Config) {
    |run| == 0 ||
    (Legal(n, run[..|run| - 1], config) && Allowed(Reach(n, run[..|run| - 1]), run[|run| - 1], config))
  }

  function Reach(n: nat, run: seq<Action>): (s: State)
    ensures |s.threads| == n
  {
    if |run| == 0 then Initial(n)
    else
      var s, a := Reach(n, run[..|run| - 1]), run[|run| - 1];
      if a.t < n then Apply(s, a) else s
  }

  // ----- The inductive invariant -----

  // Inside the region protected by lockMutex.
  predicate InGuard(pc: Pc) {
    match pc
    case ReadTestOwner | ReadNest | ReadNestDone | ReadUnlockGuard => true
    case UnlockTestWrite | UnlockClearWrite | UnlockMainWrite | UnlockTestOwner | UnlockCount => true
    case UnlockDeregister | UnlockMainRead | UnlockReaders | UnlockDone => true
    case _ => false
  }

  // mainMutex is held for reading, from statement 69 to statement 94.
  predicate HoldsRead(th: Thread) {
    th.depth > 0 || th.pc.ReadRegister? || th.pc.ReadCount? || th.pc.UnlockDeregister? || th.pc.UnlockMainRead?
  }

  // mainMutex is held for writing, from statement 78 to statement 88.
  predicate HoldsWrite(th: Thread) {
    th.writing || th.pc.WriteFlag?
  }

  predicate HoldsReadMutex(th: Thread) {
    HoldsRead(th) || th.pc.ReadLockMain? || th.pc.UnlockReaders?
  }

  predicate Registered(th: Thread) {
    th.depth > 0 || th.pc.ReadCount? || th.pc.UnlockDeregister?
  }

  predicate Flagged(th: Thread) {
    th.writing && !th.pc.UnlockMainWrite?
  }

  // Which program points a thread can be at, given what it holds.
  predicate PcFits(th: Thread) {
    && (th.depth > 0 ==> !th.writing)
    && match th.pc
       case Idle => true
       case ReadLockGuard | ReadTestOwner | UnlockDone => !th.writing
       case ReadNest | ReadNestDone | UnlockTestOwner | UnlockCount => th.depth > 0
       case UnlockGuard | UnlockTestWrite => th.depth > 0 || th.writing
       case UnlockClearWrite | UnlockMainWrite => th.writing
       case _ => th.depth == 0 && !th.writing
  }

  // What the lock says about thread t agrees with where t is and what it holds.
  predicate Fits(l: Lock, t: Tid, th: Thread) {
    && PcFits(th)
    && (l.guard == Some(t) <==> InGuard(th.pc))
    && (l.readMutex == Some(t) <==> HoldsReadMutex(th))
    && (HoldsRead(th) ==> l.access == 1)
    && (HoldsWrite(th) ==> l.access == -1)
    && (l.lockingThread == Some(t) <==> Registered(th))
    && (Registered(th) ==> l.lockCnt == th.depth)
    && (Flagged(th) ==> l.lockedForWrite)
  }

  // The lock never names a thread that does not exist, and has no readers, writers or counts left over.
  ghost predicate OwnersFit(l: Lock, threads: seq<Thread>) {
    && (l.guard.Some? ==> l.guard.value < |threads|)
    && (l.readMutex.Some? ==> l.readMutex.value < |threads|)
    && (l.lockingThread.Some? ==> l.lockingThread.value < |threads|)
    && (l.lockingThread.None? ==> l.lockCnt == 0)
    && -1 <= l.access <= 1
    && (l.access == 1 ==> l.readMutex.Some? && HoldsRead(threads[l.readMutex.value]))
    && (l.access == -1 ==> exists w: Tid :: w < |threads| && HoldsWrite(threads[w]))
    && (l.lockedForWrite ==> exists w: Tid :: w < |threads| && Flagged(threads[w]))
  }

  ghost predicate OneWriter(threads: seq<Thread>) {
    forall t: Tid, u: Tid | t < u < |threads| :: !(HoldsWrite(threads[t]) && HoldsWrite(threads[u]))
  }

  ghost predicate Inv(s: State) {
    && (forall t: Tid :: t < |s.threads| ==> Fits(s.lock, t, s.threads[t]))
    && OwnersFit(s.lock, s.threads)
    && OneWriter(s.threads)
  }

  // ----- One statement keeps the invariant -----

  // A thread that fits is at a fitting program point after its own statement.
  lemma StatementPcFits(l: Lock, t: Tid, th: Thread)
    requires Fits(l, t, th)
    requires l.lockedForWrite ==> l.access == -1
    ensures PcFits(Statement(l, t, th).1)
  {
  }

  // A thread that fits still fits after its own statement.  The owner is whoever lockingThread names.
  lemma StatementFitsSelf(l: Lock, t: Tid, th: Thread, owner: Thread)
    requires Fits(l, t, th) && Passable(l, th.pc, false)
    requires l.lockingThread.Some? ==> Fits(l, l.lockingThread.value, owner)
    requires l.lockingThread.None? ==> l.lockCnt == 0
    requires l.lockedForWrite ==> l.access == -1
    requires l.access <= 1 && (l.access == 1 && l.readMutex == Some(t) ==> HoldsRead(th))
    ensures var (l', th') := Statement(l, t, th); Fits(l', t, th')
  {
    StatementPcFits(l, t, th);
    var (l', th') := Statement(l, t, th);
    assert l'.guard == Some(t) <==> InGuard(th'.pc);
    assert l'.readMutex == Some(t) <==> HoldsReadMutex(th');
    assert l'.lockingThread == Some(t) <==> Registered(th');
  }

  // The statement of t does not disturb another thread u.
  lemma StatementFitsOther(l: Lock, t: Tid, th: Thread, u: Tid, other: Thread)
    requires Fits(l, t, th) && Passable(l, th.pc, false) && u != t && Fits(l, u, other)
    requires HoldsWrite(th) ==> !HoldsWrite(other)
    ensures var (l', th') := Statement(l, t, th);
            Fits(l', u, other) && (HoldsWrite(th') ==> !HoldsWrite(other))
  {
  }

  lemma RunKeepsFits(s: State, t: Tid, config: Config, u: Tid)
    requires Inv(s) && t < |s.threads| && Enabled(s, t, config) && u < |s.threads|
    ensures var s' := Apply(s, Run(t));
            && Fits(s'.lock, u, s'.threads[u])
            && (u != t ==> s'.threads[u] == s.threads[u])
            && (u != t && HoldsWrite(s'.threads[t]) ==> !HoldsWrite(s'.threads[u]))
  {
    var th := s.threads[t];
    if u == t {
      if s.lock.lockedForWrite {
        var w: Tid :| w < |s.threads| && Flagged(s.threads[w]);
        assert Fits(s.lock, w, s.threads[w]);
      }
      var owner := if s.lock.lockingThread.Some? then s.threads[s.lock.lockingThread.value] else th;
      StatementFitsSelf(s.lock, t, th, owner);
    } else {
      assert HoldsWrite(th) ==> !HoldsWrite(s.threads[u]) by {
        assert t < u ==> !(HoldsWrite(s.threads[t]) && HoldsWrite(s.threads[u]));
        assert u < t ==> !(HoldsWrite(s.threads[u]) && HoldsWrite(s.threads[t]));
      }
      StatementFitsOther(s.lock, t, th, u, s.threads[u]);
    }
  }

  // What the statement of one thread does to the fields that speak about all threads.
  lemma StatementOwners(l: Lock, t: Tid, th: Thread)
    requires Fits(l, t, th) && Passable(l, th.pc, false)
    requires -1 <= l.access <= 1 && (l.lockingThread.None? ==> l.lockCnt == 0)
    requires l.access == 1 ==> l.readMutex.Some? && (l.readMutex == Some(t) ==> HoldsRead(th))
    ensures var (l', th') := Statement(l, t, th);
            && -1 <= l'.access <= 1
            && (l'.lockingThread.None? ==> l'.lockCnt == 0)
            && l'.guard in {None, Some(t), l.guard}
            && l'.readMutex in {None, Some(t), l.readMutex}
            && l'.lockingThread in {None, Some(t), l.lockingThread}
            && (l'.access == 1 ==> (l'.readMutex == Some(t) && HoldsRead(th'))
                                   || (l.access == 1 && l'.readMutex == l.readMutex && l.readMutex != Some(t)))
            && (l'.access == -1 ==> HoldsWrite(th') || (l.access == -1 && !HoldsWrite(th)))
            && (l'.lockedForWrite ==> Flagged(th') || (l.lockedForWrite && !Flagged(th)))
  {
  }

  lemma RunKeepsOwners(s: State, t: Tid, config: Config)
    requires Inv(s) && t < |s.threads| && Enabled(s, t, config)
    ensures OwnersFit(Apply(s, Run(t)).lock, Apply(s, Run(t)).threads)
  {
    var th := s.threads[t];
    StatementOwners(s.lock, t, th);
    var (l', th') := Statement(s.lock, t, th);
    var threads' := s.threads[t := th'];
    assert threads'[t] == th';
    if l'.access == -1 && !HoldsWrite(th') {
      var w: Tid :| w < |s.threads| && HoldsWrite(s.threads[w]);
      assert threads'[w] == s.threads[w];
    }
    if l'.lockedForWrite && !Flagged(th') {
      var w: Tid :| w < |s.threads| && Flagged(s.threads[w]);
      assert threads'[w] == s.threads[w];
    }
  }

  lemma RunKeepsInv(s: State, t: Tid, config: Config)
    requires Inv(s) && t < |s.threads| && Enabled(s, t, config)
    ensures Inv(Apply(s, Run(t)))
  {
    var s' := Apply(s, Run(t));
    RunKeepsOwners(s, t, config);
    forall u: Tid | u < |s.threads|
      ensures Fits(s'.lock, u, s'.threads[u])
      ensures u != t ==> s'.threads[u] == s.threads[u] && !(HoldsWrite(s'.threads[t]) && HoldsWrite(s'.threads[u]))
    {
      RunKeepsFits(s, t, config, u);
    }
  }

  // Calling an operation changes nothing that the lock or other threads can see.
  lemma InvokeFits(l: Lock, t: Tid, th: Thread, op: Operation)
    requires Fits(l, t, th) && th.pc.Idle? && Disciplined(th, op)
    ensures var th' := th.(pc := Entry(op));
            && Fits(l, t, th') && HoldsRead(th') == HoldsRead(th) && HoldsWrite(th') == HoldsWrite(th)
            && Flagged(th') == Flagged(th)
  {
  }

  lemma InvokeKeepsInv(s: State, t: Tid, op: Operation)
    requires Inv(s) && t < |s.threads| && s.threads[t].pc.Idle? && Disciplined(s.threads[t], op)
    ensures Inv(Apply(s, Invoke(t, op)))
  {
    hide Fits, HoldsRead, HoldsWrite, Flagged, Disciplined, Entry;
    var threads' := Apply(s, Invoke(t, op)).threads;
    InvokeFits(s.lock, t, s.threads[t], op);
    assert forall u: Tid | u < |s.threads| ::
        HoldsWrite(threads'[u]) == HoldsWrite(s.threads[u]) && Flagged(threads'[u]) == Flagged(s.threads[u]);
    if s.lock.access == -1 {
      var w: Tid :| w < |s.threads| && HoldsWrite(s.threads[w]);
      assert HoldsWrite(threads'[w]);
    }
    if s.lock.lockedForWrite {
      var w: Tid :| w < |s.threads| && Flagged(s.threads[w]);
      assert Flagged(threads'[w]);
    }
  }

  /** The invariant holds in every state that any interleaving of disciplined threads can reach. */
  lemma {:induction false} ReachableInv(n: nat, run: seq<Action>, config: Config)
    requires config.disciplined && Legal(n, run, config)
    ensures Inv(Reach(n, run))
  {
    if |run| > 0 {
      var s, a := Reach(n, run[..|run| - 1]), run[|run| - 1];
      ReachableInv(n, run[..|run| - 1], config);
      match a {
        case Invoke(t, op) => InvokeKeepsInv(s, t, op);
        case Run(t) => RunKeepsInv(s, t, config);
      }
    }
  }

  // ----- Safety -----

  /** No reader beside a writer, at most one reading thread and at most one writing thread. */
  ghost predicate Exclusive(threads: seq<Thread>) {
    && (forall t: Tid, u: Tid | t < |threads| && u < |threads| :: !(threads[t].depth > 0 && threads[u].writing))
    && (forall t: Tid, u: Tid | t < u < |threads| :: !(threads[t].depth > 0 && threads[u].depth > 0))
    && (forall t: Tid, u: Tid | t < u < |threads| :: !(threads[t].writing && threads[u].writing))
  }

  lemma MutualExclusion(n: nat, run: seq<Action>, config: Config)
    requires config.disciplined && Legal(n, run, config)
    ensures var s := Reach(n, run);
            && Exclusive(s.threads)
            && (s.lock.lockedForWrite ==> exists t: Tid :: t < n && s.threads[t].writing)
  {
    var s := Reach(n, run);
    ReachableInv(n, run, config);
    forall t: Tid | t < n
      ensures s.threads[t].depth > 0 ==> s.lock.readMutex == Some(t) && s.lock.access == 1
      ensures s.threads[t].writing ==> HoldsWrite(s.threads[t]) && s.lock.access == -1
    {
      assert Fits(s.lock, t, s.threads[t]);
    }
    if s.lock.lockedForWrite {
      var t: Tid :| t < n && Flagged(s.threads[t]);
      assert s.threads[t].writing;
    }
  }

  /** Locks taken minus locks given back by thread t, counted from its calls alone. */
  function Balance(run: seq<Action>, t: Tid): int {
    if |run| == 0 then 0
    else
      var a := run[|run| - 1];
      Balance(run[..|run| - 1], t) +
      (if a.Invoke? && a.t == t then if a.op.Unlock? then -1 else 1 else 0)
  }

  function Held(th: Thread): int {
    th.depth + if th.writing then 1 else 0
  }

  // A lock call that has not taken effect yet, or an unlock call that has not.
  function InFlight(pc: Pc): int {
    match pc
    case ReadLockGuard | ReadTestOwner | ReadNest | ReadUnlockGuard | ReadLockReaders | ReadLockMain => 1
    case ReadRegister | ReadCount | WriteLockMain | WriteWait | WriteFlag => 1
    case UnlockGuard | UnlockTestWrite | UnlockClearWrite | UnlockMainWrite | UnlockTestOwner | UnlockCount => -1
    case _ => 0
  }

  lemma StatementKeepsHeld(l: Lock, t: Tid, th: Thread)
    requires Fits(l, t, th)
    ensures var (_, th') := Statement(l, t, th); Held(th') + InFlight(th'.pc) == Held(th) + InFlight(th.pc)
  {
  }

  lemma {:induction false} HeldIsBalance(n: nat, run: seq<Action>, config: Config, t: Tid)
    requires config.disciplined && Legal(n, run, config) && t < n
    ensures var th := Reach(n, run).threads[t]; Held(th) + InFlight(th.pc) == Balance(run, t)
  {
    if |run| > 0 {
      var s, a := Reach(n, run[..|run| - 1]), run[|run| - 1];
      HeldIsBalance(n, run[..|run| - 1], config, t);
      ReachableInv(n, run[..|run| - 1], config);
      StatementKeepsHeld(s.lock, t, s.threads[t]);
    }
  }

  /** lockCnt is exactly the nesting depth of lockingThread, counted from the calls that thread made. */
  lemma LockCountIsNestingDepth(n: nat, run: seq<Action>, config: Config)
    requires config.disciplined && Legal(n, run, config)
    ensures var Lock(_, _, _, owner, lockCnt, _) := Reach(n, run).lock;
            && (owner.None? ==> lockCnt == 0)
            && (owner.Some? ==> owner.value < n &&
                                lockCnt + InFlight(Reach(n, run).threads[owner.value].pc) == Balance(run, owner.value))
    ensures forall t: Tid :: t < n && Reach(n, run).threads[t].depth > 0 ==> Reach(n, run).lock.lockingThread == Some(t)
  {
    var s := Reach(n, run);
    ReachableInv(n, run, config);
    forall t: Tid | t < n && s.threads[t].depth > 0 ensures s.lock.lockingThread == Some(t) {
      assert Fits(s.lock, t, s.threads[t]);
    }
    var owner := s.lock.lockingThread;
    if owner.Some? {
      assert Fits(s.lock, owner.value, s.threads[owner.value]);
      HeldIsBalance(n, run, config, owner.value);
    }
  }

  /** Whatever the interleaving, once every lock call is matched by an unlock, the lock is as it was created. */
  lemma BalancedRunRestores(n: nat, run: seq<Action>, config: Config)
    requires config.disciplined && Legal(n, run, config)
    requires forall t: Tid :: t < n ==> Reach(n, run).threads[t].pc.Idle? && Balance(run, t) == 0
    ensures Reach(n, run) == Initial(n)
  {
    var s := Reach(n, run);
    ReachableInv(n, run, config);
    forall t: Tid | t < n
      ensures s.threads[t] == FRESH_THREAD
      ensures s.lock.guard != Some(t) && s.lock.readMutex != Some(t) && s.lock.lockingThread != Some(t)
    {
      HeldIsBalance(n, run, config, t);
      assert Fits(s.lock, t, s.threads[t]);
    }
    assert s.threads == Initial(n).threads;
  }

  // ----- Deadlock freedom -----

  // A thread that is between its calls and holds a lock: it is inside its critical section.
  predicate Inside(th: Thread) {
    th.pc.Idle? && (th.depth > 0 || th.writing)
  }

  ghost predicate Live(s: State, config: Config) {
    exists t: Tid :: t < |s.threads| && (Enabled(s, t, config) || Inside(s.threads[t]))
  }

  /** The thread that holds lockMutex never waits, and a nested read lock waits for lockMutex only. */
  lemma HolderNeverBlocks(n: nat, run: seq<Action>, config: Config, t: Tid)
    requires config.disciplined && Legal(n, run, config) && t < n
    ensures Reach(n, run).lock.guard == Some(t) ==> Enabled(Reach(n, run), t, config)
    ensures var th := Reach(n, run).threads[t];
            th.depth > 0 ==>
              !th.pc.ReadLockReaders? && !th.pc.ReadLockMain? && !th.pc.WriteLockMain? && !th.pc.WriteWait?
  {
    ReachableInv(n, run, config);
    var s := Reach(n, run);
    assert Fits(s.lock, t, s.threads[t]);
  }

  // With lockMutex free, a thread that holds a lock it has been granted can move or is inside.
  lemma GrantedIsLive(s: State, t: Tid, config: Config)
    requires Inv(s) && s.lock.guard.None? && t < |s.threads|
    requires HoldsRead(s.threads[t]) || HoldsWrite(s.threads[t]) || s.threads[t].pc.UnlockReaders?
    ensures Live(s, config)
  {
    assert Fits(s.lock, t, s.threads[t]);
    assert Enabled(s, t, config) || Inside(s.threads[t]);
  }

  // A thread waits for mainMutex: its holder, or a waiting writer, or the thread itself can move.
  lemma MainWaitIsLive(s: State, t: Tid, config: Config)
    requires Inv(s) && s.lock.guard.None? && t < |s.threads|
    requires s.threads[t].pc.ReadLockMain? || s.threads[t].pc.WriteWait?
    ensures Live(s, config)
  {
    if s.lock.access == 1 {
      GrantedIsLive(s, s.lock.readMutex.value, config);
    } else if s.lock.access == -1 {
      var w: Tid :| w < |s.threads| && HoldsWrite(s.threads[w]);
      GrantedIsLive(s, w, config);
    } else if WriterWaiting(s.threads) {
      var w: Tid :| w < |s.threads| && s.threads[w].pc.WriteWait?;
      assert Enabled(s, w, config);
    } else {
      assert Enabled(s, t, config);
    }
  }

  /** In every reachable state with a busy thread, some thread can move or some thread is in its critical section. */
  lemma DeadlockFree(n: nat, run: seq<Action>, config: Config, t: Tid)
    requires config.disciplined && Legal(n, run, config) && t < n
    requires !Reach(n, run).threads[t].pc.Idle?
    ensures Live(Reach(n, run), config)
  {
    var s := Reach(n, run);
    ReachableInv(n, run, config);
    var pc := s.threads[t].pc;
    if s.lock.guard.Some? {
      HolderNeverBlocks(n, run, config, s.lock.guard.value);
    } else if pc.ReadLockMain? || pc.WriteWait? {
      MainWaitIsLive(s, t, config);
    } else if pc.ReadLockReaders? && s.lock.readMutex.Some? {
      var u := s.lock.readMutex.value;
      assert Fits(s.lock, u, s.threads[u]);
      if s.threads[u].pc.ReadLockMain? { MainWaitIsLive(s, u, config); } else { GrantedIsLive(s, u, config); }
    } else {
      assert Enabled(s, t, config);
    }
  }

  // ----- Nobody is stuck for good -----

  // The statements that a call still has to execute, at most.
  function Rank(pc: Pc): nat {
    match pc
    case Idle => 0
    case ReadLockGuard => 8
    case ReadTestOwner => 7
    case ReadNest => 2
    case ReadNestDone => 1
    case ReadUnlockGuard => 6
    case ReadLockReaders => 5
    case ReadLockMain => 4
    case ReadRegister => 3
    case ReadCount => 2
    case WriteLockMain => 3
    case WriteWait => 2
    case WriteFlag => 1
    case UnlockGuard => 8
    case UnlockTestWrite => 7
    case UnlockClearWrite => 6
    case UnlockMainWrite => 5
    case UnlockTestOwner => 6
    case UnlockCount => 5
    case UnlockDeregister => 4
    case UnlockMainRead => 3
    case UnlockReaders => 2
    case UnlockDone => 1
  }

  // What is left to do for a thread that takes no further locks: its statements, and an unlock for every lock.
  function Left(th: Thread): int {
    Rank(th.pc) + 9 * (Held(th) + InFlight(th.pc))
  }

  function AllLeft(threads: seq<Thread>): int {
    if threads == [] then 0 else AllLeft(threads[..|threads| - 1]) + Left(threads[|threads| - 1])
  }

  lemma {:induction false} AllLeftUpdate(threads: seq<Thread>, t: Tid, th: Thread)
    requires t < |threads|
    ensures AllLeft(threads[t := th]) == AllLeft(threads) - Left(threads[t]) + Left(th)
    decreases |threads|
  {
    hide Left;
    var n := |threads| - 1;
    var updated := threads[t := th];
    if t == n {
      assert updated[..n] == threads[..n];
    } else {
      AllLeftUpdate(threads[..n], t, th);
      assert updated[..n] == threads[..n][t := th];
    }
  }

  lemma {:induction false} AllLeftIsNatural(l: Lock, threads: seq<Thread>)
    requires forall t: Tid :: t < |threads| ==> Fits(l, t, threads[t])
    ensures AllLeft(threads) >= 0
    decreases |threads|
  {
    hide Left, Fits;
    if threads != [] {
      var n := |threads| - 1;
      assert forall t: Tid :: t < n ==> threads[..n][t] == threads[t];
      AllLeftIsNatural(l, threads[..n]);
      LeftIsNatural(l, n, threads[n]);
    }
  }

  lemma LeftIsNatural(l: Lock, t: Tid, th: Thread)
    requires Fits(l, t, th)
    ensures Left(th) >= 0
  {
  }

  // An action by which no thread asks for a lock.
  predicate Settling(a: Action) {
    a.Invoke? ==> a.op.Unlock?
  }

  lemma SettlingActionLeavesLess(s: State, a: Action, config: Config)
    requires config.disciplined && Inv(s) && Allowed(s, a, config) && Settling(a)
    ensures AllLeft(Apply(s, a).threads) < AllLeft(s.threads)
  {
    hide AllLeft;
    assert Fits(s.lock, a.t, s.threads[a.t]);
    var th' := Apply(s, a).threads[a.t];
    AllLeftUpdate(s.threads, a.t, th');
    match a {
      case Invoke(t, _) =>
      case Run(t) => StatementLeavesLess(s.lock, t, s.threads[t]);
    }
  }

  lemma StatementLeavesLess(l: Lock, t: Tid, th: Thread)
    requires Fits(l, t, th) && !th.pc.Idle?
    ensures Left(Statement(l, t, th).1) < Left(th)
  {
  }

  // A continuation of a run in which no thread asks for a lock.
  ghost predicate Settles(n: nat, run: seq<Action>, more: seq<Action>, config: Config) {
    Legal(n, run + more, config) && forall i | 0 <= i < |more| :: Settling(more[i])
  }

  /**
   Once no thread asks for further locks, every schedule comes to an end: the number of statements and unlocks
   that can still follow is bounded by what is left to do.
   */
  lemma {:induction false} SettlingIsBounded(n: nat, run: seq<Action>, more: seq<Action>, config: Config)
    requires config.disciplined && Settles(n, run, more, config)
    ensures Legal(n, run, config)
    ensures |more| + AllLeft(Reach(n, run + more).threads) <= AllLeft(Reach(n, run).threads)
    ensures |more| <= AllLeft(Reach(n, run).threads)
    decreases |more|
  {
    hide AllLeft, Inv;
    ReachableInv(n, run + more, config);
    AllLeftOfInv(Reach(n, run + more));
    if more == [] {
      assert run + more == run;
    } else {
      var front, a := more[..|more| - 1], more[|more| - 1];
      assert (run + more)[..|run + more| - 1] == run + front && (run + more)[|run + more| - 1] == a;
      SettlingIsBounded(n, run, front, config);
      ReachableInv(n, run + front, config);
      SettlingActionLeavesLess(Reach(n, run + front), a, config);
    }
  }

  lemma AllLeftOfInv(s: State)
    requires Inv(s)
    ensures AllLeft(s.threads) >= 0
  {
    AllLeftIsNatural(s.lock, s.threads);
  }

  // As long as a thread is busy or holds a lock, there is a settling action.
  lemma SomethingSettles(n: nat, run: seq<Action>, config: Config) returns (a: Action)
    requires config.disciplined && Legal(n, run, config) && Reach(n, run) != Initial(n)
    ensures Settling(a) && Allowed(Reach(n, run), a, config)
  {
    hide Enabled, Fits, OwnersFit;
    var s := Reach(n, run);
    a := Invoke(0, Unlock);
    if t: Tid :| t < n && !s.threads[t].pc.Idle? {
      DeadlockFree(n, run, config, t);
      var u: Tid :| u < n && (Enabled(s, u, config) || Inside(s.threads[u]));
      a := if Enabled(s, u, config) then Run(u) else Invoke(u, Unlock);
    } else if t: Tid :| t < n && Held(s.threads[t]) != 0 {
      a := Invoke(t, Unlock);
    } else {
      forall t: Tid | t < n ensures s.threads[t].pc.Idle? && Balance(run, t) == 0 { HeldIsBalance(n, run, config, t); }
      BalancedRunRestores(n, run, config);
      assert false;
    }
  }

  /**
   From every reachable state there is a continuation in which the holders unlock, no thread asks for a further
   lock, every busy thread finishes its call, and the lock is as it was created: nobody is stuck for good.
   */
  lemma {:induction false} NobodyIsStuck(n: nat, run: seq<Action>, config: Config) returns (more: seq<Action>)
    requires config.disciplined && Legal(n, run, config)
    ensures Settles(n, run, more, config) && Reach(n, run + more) == Initial(n)
    ensures |more| <= AllLeft(Reach(n, run).threads)
  {
    hide AllLeft, Allowed, Apply, Legal, Settling;
    more := [];
    assert run + more == run;
    SettlingIsBounded(n, run, more, config);
    while Reach(n, run + more) != Initial(n)
      invariant Settles(n, run, more, config) && |more| <= AllLeft(Reach(n, run).threads)
      decreases AllLeft(Reach(n, run).threads) - |more|
    {
      var a := SomethingSettles(n, run + more, config);
      ExtendAppends(n, run + more, config, a);
      assert (run + more) + [a] == run + (more + [a]);
      more := more + [a];
      SettlingIsBounded(n, run, more, config);
    }
  }

  lemma ExtendAppends(n: nat, run: seq<Action>, config: Config, a: Action)
    requires Legal(n, run, config) && Allowed(Reach(n, run), a, config)
    ensures Legal(n, run + [a], config) && Reach(n, run + [a]) == Apply(Reach(n, run), a)
  {
    assert (run + [a])[..|run|] == run;
  }

  // ----- Calls that no other thread interrupts -----

  /** The lock after an uninterrupted lockForRead, lockForWrite or unlock by thread t. */
  function ReadLocked(l: Lock, t: Tid): Lock {
    if l.lockingThread == Some(t) then l.(lockCnt := l.lockCnt + 1)
    else l.(readMutex := Some(t), access := l.access + 1, lockingThread := Some(t), lockCnt := l.lockCnt + 1)
  }

  function WriteLocked(l: Lock): Lock {
    l.(access := -1, lockedForWrite := true)
  }

  function Unlocked(l: Lock, t: Tid): Lock {
    if l.lockedForWrite then l.(lockedForWrite := false, access := Released(l.access))
    else if l.lockingThread != Some(t) then l
    else if l.lockCnt == 1 then
      l.(lockCnt := 0, lockingThread := None, access := Released(l.access), readMutex := None)
    else l.(lockCnt := l.lockCnt - 1)
  }

  // No statement of the call would block.
  predicate ReadGrantable(l: Lock, t: Tid) {
    l.guard.None? && (l.lockingThread != Some(t) ==> l.readMutex.None? && l.access >= 0)
  }

  /** The methods of MultiMutex, statement by statement, as one thread executes them alone. */
  class Mutex {
    var guard: Option<Tid>
    var readMutex: Option<Tid>
    var access: int
    var lockingThread: Option<Tid>
    var lockCnt: int
    var lockedForWrite: bool

    ghost function Value(): Lock
      reads this
    {
      Lock(guard, readMutex, access, lockingThread, lockCnt, lockedForWrite)
    }

    constructor ()
      ensures Value() == FRESH_LOCK
    {
      guard, readMutex, access := None, None, 0;
      lockingThread, lockCnt, lockedForWrite := None, 0, false;
    }

    method LockForRead(t: Tid)
      requires ReadGrantable(Value(), t)
      modifies this
      ensures Value() == ReadLocked(old(Value()), t)
    {
      guard := Some(t);
      if lockingThread == Some(t) {
        lockCnt := lockCnt + 1;
        guard := None;
      } else {
        guard := None;
        readMutex := Some(t);
        access := access + 1;
        lockingThread := Some(t);
        lockCnt := lockCnt + 1;
      }
    }

    /** From here on no call of lockForRead or lockForWrite is granted to another thread; the unlock undoes it all. */
    method LockForWrite(t: Tid)
      requires access == 0
      modifies this
      ensures Value() == WriteLocked(old(Value()))
      ensures forall u: Tid | lockingThread != Some(u) :: !ReadGrantable(Value(), u)
      ensures access != 0
      ensures !old(lockedForWrite) ==> Unlocked(Value(), t) == old(Value())
    {
      access := -1;
      lockedForWrite := true;
    }

    /** A thread that is not registered changes nothing, unless the lock is a writer's. */
    method Unlock(t: Tid)
      requires guard.None?
      modifies this
      ensures Value() == Unlocked(old(Value()), t)
      ensures !old(lockedForWrite) && old(lockingThread) != Some(t) ==> Value() == old(Value())
    {
      guard := Some(t);
      if lockedForWrite {
        lockedForWrite := false;
        access := Released(access);
      } else if lockingThread == Some(t) {
        lockCnt := lockCnt - 1;
        if lockCnt == 0 {
          lockingThread := None;
          access := Released(access);
          readMutex := None;
        }
      }
      guard := None;
    }

    /** n nested read locks and n unlocks by one thread leave the lock as it was, from any unlocked or own state. */
    method NestReads(t: Tid, n: nat)
      requires ReadGrantable(Value(), t) && !lockedForWrite
      requires lockingThread == Some(t) ==> lockCnt > 0
      requires lockingThread != Some(t) ==> lockingThread.None? && lockCnt == 0
      modifies this
      ensures Value() == old(Value())
    {
      ghost var l := Value();
      for i := 0 to n
        invariant Value() == if i == 0 then l else ReadLocked(l, t).(lockCnt := l.lockCnt + i)
      {
        LockForRead(t);
      }
      for i := 0 to n
        invariant Value() == if i == n then l else ReadLocked(l, t).(lockCnt := l.lockCnt + n - i)
      {
        Unlock(t);
      }
    }
  }

  // ----- Unlocking what another thread holds -----

  /** Thread t is in an unlock that found no writer, and will not find itself to be the locking thread. */
  predicate LeavesAlone(s: State, t: Tid)
    requires t < |s.threads|
  {
    match s.threads[t].pc
    case UnlockTestWrite => !s.lock.lockedForWrite && s.lock.lockingThread != Some(t)
    case UnlockTestOwner => s.lock.lockingThread != Some(t)
    case UnlockDone => true
    case _ => false
  }

  /**
   Disciplined or not, such an unlock changes nothing but the guard until it returns, whatever the other threads do
   meanwhile; only a writer that starts before it looks can be taken for its own.
   */
  lemma ForeignUnlockStep(s: State, t: Tid, a: Action, config: Config)
    requires t < |s.threads| && Allowed(s, a, config) && LeavesAlone(s, t)
    ensures var s' := Apply(s, a);
            && (a == Run(t) ==>
                  && s'.lock.(guard := None) == s.lock.(guard := None)
                  && s'.threads == s.threads[t := s.threads[t].(pc := s'.threads[t].pc)]
                  && (s'.threads[t].pc.Idle? || LeavesAlone(s', t)))
            && (a.t != t ==>
                  s'.threads[t] == s.threads[t] &&
                  (LeavesAlone(s', t) || (s.threads[t].pc.UnlockTestWrite? && s'.lock.lockedForWrite)))
  {
  }

  /** Uninterrupted, it leaves the lock and every thread as they were, after any legal run. */
  lemma ForeignUnlockChangesNothing(n: nat, run: seq<Action>, config: Config, t: Tid)
    requires Legal(n, run, config) && Allowed(Reach(n, run), Invoke(t, Unlock), config)
    requires var l := Reach(n, run).lock; l.guard.None? && !l.lockedForWrite && l.lockingThread != Some(t)
    ensures var call := run + [Invoke(t, Unlock)] + [Run(t)] + [Run(t)] + [Run(t)] + [Run(t)];
            Legal(n, call, config) && Reach(n, call) == Reach(n, run)
  {
    hide Legal, Reach, Enabled;
    var run0 := run + [Invoke(t, Unlock)];
    ExtendAppends(n, run, config, Invoke(t, Unlock));
    ExtendAppends(n, run0, config, Run(t));
    ExtendAppends(n, run0 + [Run(t)], config, Run(t));
    ExtendAppends(n, run0 + [Run(t)] + [Run(t)], config, Run(t));
    ExtendAppends(n, run0 + [Run(t)] + [Run(t)] + [Run(t)], config, Run(t));
    assert Reach(n, run).threads[t] == Reach(n, run).threads[t].(pc := Idle);
  }

  // ----- The calls above are runs of the transition system -----

  lemma Extend(n: nat, run: seq<Action>, config: Config, a: Action) returns (longer: seq<Action>)
    requires Legal(n, run, config) && Allowed(Reach(n, run), a, config)
    ensures Legal(n, longer, config) && Reach(n, longer) == Apply(Reach(n, run), a)
  {
    longer := run + [a];
    assert longer[..|longer| - 1] == run;
  }

  // Thread t executes its statements until it is idle again; None if one of them would block.
  function Alone(l: Lock, t: Tid, th: Thread, fuel: nat): Option<(Lock, Thread)>
    decreases fuel
  {
    if th.pc.Idle? then Some((l, th))
    else if fuel == 0 || !Passable(l, th.pc, false) then None
    else var (l', th') := Statement(l, t, th); Alone(l', t, th', fuel - 1)
  }

  ghost predicate OtherWaits(threads: seq<Thread>, t: Tid) {
    exists w: Tid :: w < |threads| && w != t && threads[w].pc.WriteWait?
  }

  lemma WaiterIsOther(threads: seq<Thread>, t: Tid, th: Thread)
    requires t < |threads| && WriterWaiting(threads[t := th])
    ensures th.pc.WriteWait? || OtherWaits(threads, t)
  {
    var w: Tid :| w < |threads| && threads[t := th][w].pc.WriteWait?;
    assert w != t ==> threads[w].pc.WriteWait?;
  }

  // Only a waiting writer can hold the thread back.
  lemma PassableIsEnabled(threads: seq<Thread>, l: Lock, t: Tid, th: Thread, config: Config)
    requires t < |threads| && Passable(l, th.pc, false) && !(config.writersFirst && OtherWaits(threads, t))
    ensures Enabled(State(threads[t := th], l), t, config)
  {
    if WriterWaiting(threads[t := th]) { WaiterIsOther(threads, t, th); }
  }

  lemma AloneIsRun(n: nat, run: seq<Action>, config: Config, threads: seq<Thread>, l: Lock, t: Tid, th: Thread,
                   fuel: nat)
    returns (longer: seq<Action>)
    requires Legal(n, run, config) && t < n == |threads| && !(config.writersFirst && OtherWaits(threads, t))
    requires Reach(n, run) == State(threads[t := th], l) && Alone(l, t, th, fuel).Some?
    ensures Legal(n, longer, config)
    ensures var (l', th') := Alone(l, t, th, fuel).value; Reach(n, longer) == State(threads[t := th'], l')
    decreases fuel
  {
    longer := run;
    if !th.pc.Idle? {
      var (l', th') := Statement(l, t, th);
      PassableIsEnabled(threads, l, t, th, config);
      longer := Extend(n, run, config, Run(t));
      assert threads[t := th][t := th'] == threads[t := th'];
      longer := AloneIsRun(n, longer, config, threads, l', t, th', fuel - 1);
    }
  }

  lemma CallIsRun(n: nat, run: seq<Action>, config: Config, t: Tid, op: Operation) returns (longer: seq<Action>)
    requires Legal(n, run, config) && t < n && !(config.writersFirst && OtherWaits(Reach(n, run).threads, t))
    requires Allowed(Reach(n, run), Invoke(t, op), config)
    requires Alone(Reach(n, run).lock, t, Reach(n, run).threads[t].(pc := Entry(op)), 9).Some?
    ensures Legal(n, longer, config)
    ensures var s := Reach(n, run);
            var (l', th') := Alone(s.lock, t, s.threads[t].(pc := Entry(op)), 9).value;
            Reach(n, longer) == State(s.threads[t := th'], l')
  {
    var s := Reach(n, run);
    longer := Extend(n, run, config, Invoke(t, op));
    longer := AloneIsRun(n, longer, config, s.threads, s.lock, t, s.threads[t].(pc := Entry(op)), 9);
  }

  // The next statement of a call that does not block.
  lemma AloneStep(l: Lock, t: Tid, th: Thread, fuel: nat) returns (l': Lock, th': Thread)
    requires !th.pc.Idle? && fuel > 0 && Passable(l, th.pc, false)
    ensures (l', th') == Statement(l, t, th) && Alone(l, t, th, fuel) == Alone(l', t, th', fuel - 1)
    ensures th'.pc.Idle? ==> Alone(l, t, th, fuel) == Some((l', th'))
  {
    var after := Statement(l, t, th);
    l', th' := after.0, after.1;
  }

  lemma ReadAlone(l: Lock, t: Tid, th: Thread)
    requires ReadGrantable(l, t) && th.pc.Idle?
    ensures Alone(l, t, th.(pc := ReadLockGuard), 9) == Some((ReadLocked(l, t), th.(depth := th.depth + 1)))
  {
    hide Alone;
    var l1, th1 := AloneStep(l, t, th.(pc := ReadLockGuard), 9);
    var l2, th2 := AloneStep(l1, t, th1, 8);
    var l3, th3 := AloneStep(l2, t, th2, 7);
    var l4, th4 := AloneStep(l3, t, th3, 6);
    if l.lockingThread != Some(t) {
      var l5, th5 := AloneStep(l4, t, th4, 5);
      var l6, th6 := AloneStep(l5, t, th5, 4);
      var l7, th7 := AloneStep(l6, t, th6, 3);
    }
  }

  lemma WriteAlone(l: Lock, t: Tid, th: Thread)
    requires l.access == 0 && th.pc.Idle?
    ensures Alone(l, t, th.(pc := WriteLockMain), 9) == Some((WriteLocked(l), th.(writing := true)))
  {
    hide Alone;
    var l1, th1 := AloneStep(l, t, th.(pc := WriteLockMain), 9);
    var l2, th2 := AloneStep(l1, t, th1, 8);
  }

  lemma UnlockWriteAlone(l: Lock, t: Tid, th: Thread)
    requires l.guard.None? && l.lockedForWrite && th.pc.Idle?
    ensures Alone(l, t, th.(pc := UnlockGuard), 9) == Some((Unlocked(l, t), th.(writing := false)))
  {
    hide Alone;
    var l1, th1 := AloneStep(l, t, th.(pc := UnlockGuard), 9);
    var l2, th2 := AloneStep(l1, t, th1, 8);
    var l3, th3 := AloneStep(l2, t, th2, 7);
    var l4, th4 := AloneStep(l3, t, th3, 6);
    var l5, th5 := AloneStep(l4, t, th4, 5);
  }

  // unlock by a reader, up to --lockCnt.
  lemma UnlockToCount(l: Lock, t: Tid, th: Thread)
    requires l.guard.None? && !l.lockedForWrite && l.lockingThread == Some(t) && th.pc.Idle?
    ensures Alone(l, t, th.(pc := UnlockGuard), 9) == Alone(l.(guard := Some(t)), t, th.(pc := UnlockCount), 6)
  {
    hide Alone;
    var l1, th1 := AloneStep(l, t, th.(pc := UnlockGuard), 9);
    var l2, th2 := AloneStep(l1, t, th1, 8);
    var l3, th3 := AloneStep(l2, t, th2, 7);
  }

  lemma LastUnlockAlone(l: Lock, t: Tid, th: Thread)
    requires th.pc.UnlockDeregister?
    ensures Alone(l, t, th, 5) ==
            Some((l.(guard := None, lockingThread := None, access := Released(l.access), readMutex := None),
                  th.(pc := Idle)))
  {
    hide Alone;
    var l1, th1 := AloneStep(l, t, th, 5);
    var l2, th2 := AloneStep(l1, t, th1, 4);
    var l3, th3 := AloneStep(l2, t, th2, 3);
    var l4, th4 := AloneStep(l3, t, th3, 2);
  }

  lemma UnlockReadAlone(l: Lock, t: Tid, th: Thread)
    requires l.guard.None? && !l.lockedForWrite && l.lockingThread == Some(t) && th.pc.Idle? && th.depth > 0
    ensures Alone(l, t, th.(pc := UnlockGuard), 9) == Some((Unlocked(l, t), th.(depth := th.depth - 1)))
  {
    hide Alone;
    UnlockToCount(l, t, th);
    var l1, th1 := AloneStep(l.(guard := Some(t)), t, th.(pc := UnlockCount), 6);
    if l.lockCnt == 1 {
      LastUnlockAlone(l1, t, th1);
    } else {
      var l2, th2 := AloneStep(l1, t, th1, 5);
    }
  }

  /** The post-state of the methods of Mutex, and when they do not block. */
  function Called(l: Lock, t: Tid, op: Operation): Lock {
    match op
    case LockForRead => ReadLocked(l, t)
    case LockForWrite => WriteLocked(l)
    case Unlock => Unlocked(l, t)
  }

  predicate Grantable(l: Lock, t: Tid, op: Operation) {
    match op
    case LockForRead => ReadGrantable(l, t)
    case LockForWrite => l.access == 0
    case Unlock => l.guard.None?
  }

  /**
   In every reachable state, a call that Mutex can grant is a run of the transition system with the same outcome;
   unless it is held back by a writer that waits.
   */
  lemma UninterruptedCall(n: nat, run: seq<Action>, config: Config, t: Tid, op: Operation)
    returns (longer: seq<Action>)
    requires config.disciplined && Legal(n, run, config) && Allowed(Reach(n, run), Invoke(t, op), config)
    requires !(config.writersFirst && WriterWaiting(Reach(n, run).threads))
    requires Grantable(Reach(n, run).lock, t, op)
    ensures Legal(n, longer, config)
    ensures var s, s' := Reach(n, run), Reach(n, longer);
            && s'.lock == Called(s.lock, t, op)
            && s'.threads[t].pc.Idle?
            && Held(s'.threads[t]) == Held(s.threads[t]) + (if op.Unlock? then -1 else 1)
            && (forall u: Tid :: u < n && u != t ==> s'.threads[u] == s.threads[u])
  {
    var State(threads, l) := Reach(n, run);
    var th := threads[t];
    ReachableInv(n, run, config);
    assert Fits(l, t, th);
    match op {
      case LockForRead => ReadAlone(l, t, th);
      case LockForWrite => WriteAlone(l, t, th);
      case Unlock =>
        if l.lockedForWrite {
          var w: Tid :| w < n && Flagged(threads[w]);
          assert Fits(l, w, threads[w]);
          UnlockWriteAlone(l, t, th);
        } else {
          UnlockReadAlone(l, t, th);
        }
    }
    longer := CallIsRun(n, run, config, t, op);
  }

  // ----- The discipline is needed -----

  /** A thread that unlocks while another thread writes lets a second writer in. */
  lemma ForeignUnlockBreaksExclusion(config: Config) returns (run: seq<Action>)
    requires !config.disciplined
    ensures Legal(2, run, config) && !Exclusive(Reach(2, run).threads)
  {
    hide Alone;
    WriteAlone(FRESH_LOCK, 0, FRESH_THREAD);
    run := CallIsRun(2, [], config, 0, LockForWrite);
    UnlockWriteAlone(WriteLocked(FRESH_LOCK), 1, FRESH_THREAD);
    run := CallIsRun(2, run, config, 1, Unlock);
    WriteAlone(FRESH_LOCK, 1, FRESH_THREAD);
    run := CallIsRun(2, run, config, 1, LockForWrite);
    var threads := Reach(2, run).threads;
    assert threads[0].writing && threads[1].writing;
  }

  /** A reader that asks for the write lock waits for itself: nothing can move and no one is inside. */
  lemma ReadThenWriteDeadlocks(config: Config) returns (run: seq<Action>)
    requires !config.disciplined
    ensures Legal(1, run, config) && !Reach(1, run).threads[0].pc.Idle? && !Live(Reach(1, run), config)
  {
    hide Alone;
    ReadAlone(FRESH_LOCK, 0, FRESH_THREAD);
    run := CallIsRun(1, [], config, 0, LockForRead);
    run := Extend(1, run, config, Invoke(0, LockForWrite));
    run := Extend(1, run, config, Run(0));
    assert Reach(1, run).threads[0].pc == WriteWait && Reach(1, run).lock.access == 1;
  }
}
