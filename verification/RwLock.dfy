/**
 The fiber reader/writer lock: one packed state word changed by compare-and-swap, and two waiter queues.
 A fiber that finds the lock busy first registers in the word and only then enqueues itself; an unlocker
 hands the lock over in the word first and then pops and schedules the fibers it owes a wake.

 Parking is a contract here: a waiting fiber proceeds when, and only when, a waker has popped it.  The
 queues are sequences; a pop may also find nothing, as a pop racing with an enqueue does.
 */
module RwLock {
  import opened Common
  import opened Runs
  import opened Counting
  import Parking

  // ---------------------------------------------------------------- the state word

  const LIMIT: nat := 0x20_0000   // 2^21: counters are 21-bit fields

  datatype Word = Word(writeLocked: bool, readers: nat, waitingReaders: nat, waitingWriters: nat)

  const FREE := Word(false, 0, 0, 0)

  predicate InRange(w: Word) {
    w.readers < LIMIT && w.waitingReaders < LIMIT && w.waitingWriters < LIMIT
  }

  /** Field arithmetic wraps at 21 bits. */
  function Inc(x: nat): nat { if x + 1 == LIMIT then 0 else x + 1 }

  function Dec(x: nat): nat { if x == 0 then LIMIT - 1 else x - 1 }

  /** The 64-bit blob that the compare-and-swap works on. */
  function Pack(w: Word): nat {
    (if w.writeLocked then 1 else 0) + 2 * (w.readers + LIMIT * (w.waitingReaders + LIMIT * w.waitingWriters))
  }

  function Unpack(blob: nat): Word {
    var fields := blob / 2;
    Word(blob % 2 == 1, fields % LIMIT, fields / LIMIT % LIMIT, fields / LIMIT / LIMIT)
  }

  /** Comparing blobs is comparing fields, and the blob is zero exactly when the lock is free. */
  lemma BlobIsFields(v: Word, w: Word)
    requires InRange(v) && InRange(w)
    ensures Unpack(Pack(w)) == w && Pack(w) < 0x1_0000_0000_0000_0000
    ensures Pack(v) == Pack(w) <==> v == w
    ensures Pack(w) == 0 <==> w == FREE
  {
    UnpackPack(v);
    UnpackPack(w);
  }

  lemma UnpackPack(w: Word)
    requires InRange(w)
    ensures Unpack(Pack(w)) == w && Pack(w) < 0x1_0000_0000_0000_0000
  {
    var high := w.waitingReaders + LIMIT * w.waitingWriters;
    var fields := w.readers + LIMIT * high;
    assert Pack(w) / 2 == fields;
    assert fields % LIMIT == w.readers && fields / LIMIT == high;
    assert high % LIMIT == w.waitingReaders && high / LIMIT == w.waitingWriters;
  }

  // ---------------------------------------------------------------- fibers

  datatype Op = RdLock | WrLock | TryRdLock | TryWrLock | RdUnlock | WrUnlock

  datatype Fiber =
    | Away
    | Loading(op: Op)
    | Swapping(op: Op, snapshot: Word)
    | ReadRegistered        // counted in waiting_readers, not yet in the queue
    | ReadParked            // in the read queue
    | WriteRegistered
    | WriteParked
    | Reading
    | Writing
    | WakingReaders(n: nat) // still owes n wakes from the read queue
    | WakingWriter

  datatype State = State(
    word: Word,
    readQueue: seq<Tid>,
    writeQueue: seq<Tid>,
    fibers: seq<Fiber>,
    // auxiliary: wakes owed and by whom; no step branches on these
    owedReaders: nat,
    owedWriters: nat,
    readWaker: Option<Tid>,
    writeWaker: Option<Tid>,
    readers: Parking.Turns,
    writers: Parking.Turns)

  ghost predicate Init(s: State) {
    s == State(FREE, [], [], [], 0, 0, None, None, Parking.NOBODY, Parking.NOBODY)
  }

  /** A try-lock that gives up without a compare-and-swap. */
  predicate Refuses(op: Op, w: Word) {
    || (op == TryRdLock && (w.waitingWriters != 0 || w.writeLocked || w.waitingReaders != 0))
    || (op == TryWrLock && w != FREE)
  }

  /** The word a successful compare-and-swap installs, and what the fiber does next. */
  function Attempt(op: Op, w: Word): (r: (Word, Fiber)) {
    match op
    case RdLock =>
      if w.waitingWriters != 0 || w.writeLocked || w.waitingReaders != 0
      then (w.(waitingReaders := Inc(w.waitingReaders)), ReadRegistered)
      else (w.(readers := Inc(w.readers)), Reading)
    case TryRdLock => (w.(readers := Inc(w.readers)), Reading)
    case WrLock =>
      if w != FREE then (w.(waitingWriters := Inc(w.waitingWriters)), WriteRegistered)
      else (w.(writeLocked := true), Writing)
    case TryWrLock => (w.(writeLocked := true), Writing)
    case RdUnlock =>
      var v := w.(readers := Dec(w.readers));
      if v.readers == 0 then HandOver(v) else (v, Away)
    case WrUnlock => HandOver(w.(writeLocked := false))
  }

  /** Leaving an unheld lock: a waiting writer goes first, then all waiting readers. */
  function HandOver(v: Word): (r: (Word, Fiber)) {
    if v.waitingWriters != 0 then
      (v.(writeLocked := true, waitingWriters := Dec(v.waitingWriters)), WakingWriter)
    else if v.waitingReaders != 0 then
      (v.(readers := v.waitingReaders, waitingReaders := 0), WakingReaders(v.waitingReaders))
    else (v, Away)
  }

  // ---------------------------------------------------------------- transitions

  /** Fibers are numbered as they appear; there are fewer than 2^21 of them. */
  ghost predicate Fresh(s: State, s': State) {
    |s.fibers| + 1 < LIMIT && s' == s.(fibers := s.fibers + [Away])
  }

  ghost function Goto(s: State, f: Tid, pc: Fiber): State
    requires f < |s.fibers|
  {
    s.(fibers := s.fibers[f := pc])
  }

  ghost predicate Step(s: State, s': State, f: Tid) {
    && f < |s.fibers|
    && match s.fibers[f]
       case Away =>
         exists op :: op in {RdLock, WrLock, TryRdLock, TryWrLock} && s' == Goto(s, f, Loading(op))
       case Reading => s' == Goto(s, f, Loading(RdUnlock))
       case Writing => s' == Goto(s, f, Loading(WrUnlock))
       case Loading(op) => s' == Goto(s, f, Swapping(op, s.word))
       case Swapping(op, snapshot) =>
         if Refuses(op, snapshot) then s' == Goto(s, f, Away)
         else if s.word != snapshot then s' == Goto(s, f, Loading(op))
         else var (w, pc) := Attempt(op, s.word); s' == Installed(s, f, w, pc)
       case ReadRegistered => s' == ReadParks(s, f)
       case WriteRegistered => s' == WriteParks(s, f)
       case ReadParked => false
       case WriteParked => false
       case WakingReaders(n) =>
         s' == s || (s.readQueue != [] && s.readQueue[0] < |s.fibers| && n > 0 && s' == WakeReader(s, f, n))
       case WakingWriter =>
         s' == s || (s.writeQueue != [] && s.writeQueue[0] < |s.fibers| && s' == WakeWriter(s, f))
  }

  /** A compare-and-swap that finds its snapshot installs w, and the fiber goes on at pc. */
  ghost function Installed(s: State, f: Tid, w: Word, pc: Fiber): State
    requires f < |s.fibers|
  {
    var s1 := Goto(s, f, pc).(word := w);
    match pc
    case WakingReaders(n) => s1.(owedReaders := n, readWaker := Some(f))
    case WakingWriter => s1.(owedWriters := 1, writeWaker := Some(f))
    case _ => s1
  }

  ghost function ReadParks(s: State, f: Tid): State
    requires f < |s.fibers|
  {
    Goto(s, f, ReadParked).(readQueue := s.readQueue + [f], readers := Parking.Arrives(s.readers, f))
  }

  ghost function WriteParks(s: State, f: Tid): State
    requires f < |s.fibers|
  {
    Goto(s, f, WriteParked).(writeQueue := s.writeQueue + [f], writers := Parking.Arrives(s.writers, f))
  }

  ghost function WakeReader(s: State, f: Tid, n: nat): State
    requires f < |s.fibers| && s.readQueue != [] && s.readQueue[0] < |s.fibers| && n > 0
  {
    s.(fibers := s.fibers[s.readQueue[0] := Reading][f := if n == 1 then Away else WakingReaders(n - 1)],
       readQueue := s.readQueue[1..],
       readers := Parking.Wakes(s.readers, s.readQueue[0]),
       owedReaders := n - 1,
       readWaker := if n == 1 then None else Some(f))
  }

  ghost function WakeWriter(s: State, f: Tid): State
    requires f < |s.fibers| && s.writeQueue != [] && s.writeQueue[0] < |s.fibers|
  {
    s.(fibers := s.fibers[s.writeQueue[0] := Writing][f := Away],
       writeQueue := s.writeQueue[1..],
       writers := Parking.Wakes(s.writers, s.writeQueue[0]),
       owedWriters := 0,
       writeWaker := None)
  }

  ghost predicate Next(s: State, s': State) {
    Fresh(s, s') || exists f :: Step(s, s', f)
  }

  // ---------------------------------------------------------------- counting fibers

  datatype Role = Neutral | Reader | Writer | ReadWaiter | WriteWaiter

  ghost function RoleOf(pc: Fiber): Role {
    match pc
    case Reading => Reader
    case Writing => Writer
    case Loading(op) => if op == RdUnlock then Reader else if op == WrUnlock then Writer else Neutral
    case Swapping(op, _) => if op == RdUnlock then Reader else if op == WrUnlock then Writer else Neutral
    case ReadRegistered => ReadWaiter
    case ReadParked => ReadWaiter
    case WriteRegistered => WriteWaiter
    case WriteParked => WriteWaiter
    case _ => Neutral
  }

  /** Lock holders are Reader and Writer, registered but unwoken fibers the waiters. */
  ghost function Is(r: Role): Fiber -> bool {
    pc => RoleOf(pc) == r
  }

  datatype Census = Census(readers: int, writers: int, readWaiters: int, writeWaiters: int)

  ghost function Tally(fs: seq<Fiber>): Census {
    Census(Count(fs, Is(Reader)), Count(fs, Is(Writer)), Count(fs, Is(ReadWaiter)), Count(fs, Is(WriteWaiter)))
  }

  ghost function Add(c: Census, r: Role, d: int): Census {
    match r
    case Neutral => c
    case Reader => c.(readers := c.readers + d)
    case Writer => c.(writers := c.writers + d)
    case ReadWaiter => c.(readWaiters := c.readWaiters + d)
    case WriteWaiter => c.(writeWaiters := c.writeWaiters + d)
  }

  lemma MoveAll(fs: seq<Fiber>, f: Tid, pc: Fiber)
    requires f < |fs|
    ensures Tally(fs[f := pc]) == Add(Add(Tally(fs), RoleOf(fs[f]), -1), RoleOf(pc), 1)
  {
    Move(fs, f, pc, Is(Reader));
    Move(fs, f, pc, Is(Writer));
    Move(fs, f, pc, Is(ReadWaiter));
    Move(fs, f, pc, Is(WriteWaiter));
  }

  lemma {:induction false} Partition(fs: seq<Fiber>)
    ensures Count(fs, Is(Reader)) + Count(fs, Is(Writer)) + Count(fs, Is(ReadWaiter)) + Count(fs, Is(WriteWaiter))
      + Count(fs, Is(Neutral)) == |fs|
  {
    if fs != [] {
      Partition(fs[..|fs| - 1]);
    }
  }

  /** Roles cannot outnumber the fibers, and a fiber counts in its own role. */
  lemma Bounds(fs: seq<Fiber>, f: Tid)
    requires f < |fs|
    ensures Total(Tally(fs)) <= |fs|
    ensures RoleOf(fs[f]) == Neutral ==> Total(Tally(fs)) < |fs|
    ensures RoleOf(fs[f]) == Reader ==> Tally(fs).readers > 0
    ensures RoleOf(fs[f]) == Writer ==> Tally(fs).writers > 0
  {
    Partition(fs);
    Positive(fs, f, Is(RoleOf(fs[f])));
  }

  ghost function Total(c: Census): int {
    c.readers + c.writers + c.readWaiters + c.writeWaiters
  }

  // ---------------------------------------------------------------- invariant

  /** The word's fields as numbers, and what the fibers and the wakes still owed make of them. */
  ghost function Fields(w: Word): Census {
    Census(w.readers, if w.writeLocked then 1 else 0, w.waitingReaders, w.waitingWriters)
  }

  ghost function Expected(c: Census, owedReaders: nat, owedWriters: nat): Census {
    Census(c.readers + owedReaders, c.writers + owedWriters, c.readWaiters - owedReaders, c.writeWaiters - owedWriters)
  }

  /** The word accounts for every holder, every waiter and every wake still owed; waiters mean a held lock. */
  ghost predicate Accounts(w: Word, c: Census, owedReaders: nat, owedWriters: nat) {
    Fields(w) == Expected(c, owedReaders, owedWriters) && c.readers >= 0 && c.writers >= 0 && Exclusive(w)
  }

  ghost predicate Exclusive(w: Word) {
    if w.writeLocked then w.readers == 0 else w.readers > 0 || (w.waitingReaders == 0 && w.waitingWriters == 0)
  }

  ghost predicate WordInv(s: State) {
    Accounts(s.word, Tally(s.fibers), s.owedReaders, s.owedWriters) && |s.fibers| < LIMIT
  }

  /** The auxiliary accounts name the one fiber that pops each queue. */
  ghost predicate WakerInv(s: State) {
    && (forall f :: 0 <= f < |s.fibers| ==> WakerNamed(s, f))
    && (s.readWaker.Some? <==> s.owedReaders > 0)
    && (s.readWaker.Some? ==> s.readWaker.value < |s.fibers| && s.fibers[s.readWaker.value].WakingReaders?)
    && s.owedWriters == (if s.writeWaker.Some? then 1 else 0)
    && (s.writeWaker.Some? ==> s.writeWaker.value < |s.fibers| && s.fibers[s.writeWaker.value].WakingWriter?)
  }

  ghost predicate WakerNamed(s: State, f: Tid)
    requires f < |s.fibers|
  {
    && (s.fibers[f].WakingReaders? ==> s.readWaker == Some(f) && s.owedReaders == s.fibers[f].n)
    && (s.fibers[f].WakingWriter? ==> s.writeWaker == Some(f))
  }

  /** The assertions at the head of both unlock operations hold of every snapshot they are applied to. */
  ghost predicate SnapshotInv(pc: Fiber) {
    && (pc.Swapping? && pc.op == RdUnlock ==> pc.snapshot.readers > 0 && !pc.snapshot.writeLocked)
    && (pc.Swapping? && pc.op == WrUnlock ==> pc.snapshot.readers == 0 && pc.snapshot.writeLocked)
  }

  ghost predicate SnapshotsInv(fibers: seq<Fiber>) {
    forall f :: 0 <= f < |fibers| ==> SnapshotInv(fibers[f])
  }

  ghost predicate QueuesInv(s: State) {
    Parking.Holds(s.fibers, s.readQueue, ReadParked) && Parking.Holds(s.fibers, s.writeQueue, WriteParked)
  }

  ghost predicate Inv(s: State) {
    WordInv(s) && WakerInv(s) && SnapshotsInv(s.fibers) && QueuesInv(s)
  }

  // ---------------------------------------------------------------- the word

  /** The counter that a lock operation increments is not at its maximum. */
  predicate HasRoom(op: Op, w: Word) {
    match Attempt(op, w).1
    case ReadRegistered => w.waitingReaders + 1 < LIMIT
    case WriteRegistered => w.waitingWriters + 1 < LIMIT
    case Reading => w.readers + 1 < LIMIT
    case _ => true
  }

  /** A lock operation keeps the accounts exactly when the 21-bit field it increments does not wrap. */
  lemma LockAccounts(op: Op, w: Word, c: Census, owedReaders: nat, owedWriters: nat)
    requires InRange(w) && Accounts(w, c, owedReaders, owedWriters)
    requires !Refuses(op, w) && op != RdUnlock && op != WrUnlock
    ensures var (w', pc) := Attempt(op, w);
      Accounts(w', Add(c, RoleOf(pc), 1), owedReaders, owedWriters) <==> HasRoom(op, w)
  {
  }

  /** Without room the accounts are lost at once: the reader after 2^21 - 1 others leaves a word that looks free, and
      a writer is then let in beside all of them. */
  lemma WrappedReadersLookFree()
    ensures var w := Word(false, LIMIT - 1, 0, 0);
      && !HasRoom(RdLock, w) && Attempt(RdLock, w) == (FREE, Reading)
      && Attempt(WrLock, FREE) == (FREE.(writeLocked := true), Writing)
  {
  }

  /** The wakes owed once a fiber has gone on at pc. */
  ghost function OwedReaders(pc: Fiber, owed: nat): nat {
    if pc.WakingReaders? then pc.n else owed
  }

  ghost function OwedWriters(pc: Fiber, owed: nat): nat {
    if pc.WakingWriter? then 1 else owed
  }

  /** Installing w keeps the accounts of a fiber that leaves role r for pc, and nobody else owes the same wakes. */
  ghost predicate SwapKeeps(c: Census, owedReaders: nat, owedWriters: nat, r: Role, w: Word, pc: Fiber) {
    && Accounts(w, Add(Add(c, r, -1), RoleOf(pc), 1), OwedReaders(pc, owedReaders), OwedWriters(pc, owedWriters))
    && (pc.WakingReaders? ==> owedReaders == 0 && pc.n > 0)
    && (pc.WakingWriter? ==> owedWriters == 0)
  }

  lemma LockKeeps(op: Op, w: Word, c: Census, owedReaders: nat, owedWriters: nat, w': Word, pc: Fiber)
    requires Accounts(w, c, owedReaders, owedWriters) && !Refuses(op, w) && RoleOf(Loading(op)) == Neutral
    requires Total(c) + 1 < LIMIT && (w', pc) == Attempt(op, w)
    ensures SwapKeeps(c, owedReaders, owedWriters, Neutral, w', pc)
  {
    LockAccounts(op, w, c, owedReaders, owedWriters);
  }

  /** Nobody holds the lock and no wake is owed. */
  ghost predicate Unheld(v: Word, c: Census) {
    && v.readers == 0 && !v.writeLocked && c.readers == 0 && c.writers == 0
    && c.readWaiters == v.waitingReaders && c.writeWaiters == v.waitingWriters
  }

  lemma HandOverAccounts(v: Word, c: Census, w': Word, pc: Fiber)
    requires Unheld(v, c) && (w', pc) == HandOver(v)
    ensures Accounts(w', c, OwedReaders(pc, 0), OwedWriters(pc, 0)) && RoleOf(pc) == Neutral
    ensures pc.WakingReaders? ==> pc.n > 0
  {
  }

  lemma Released(op: Op, w: Word, c: Census, owedReaders: nat, owedWriters: nat, v: Word, c': Census)
    requires Accounts(w, c, owedReaders, owedWriters) && (op == RdUnlock || op == WrUnlock)
    requires if op == RdUnlock then c.readers > 0 else c.writers > 0
    requires v == if op == RdUnlock then w.(readers := Dec(w.readers)) else w.(writeLocked := false)
    requires c' == Add(c, RoleOf(Loading(op)), -1)
    ensures if v.readers == 0 then Unheld(v, c') && owedReaders == owedWriters == 0
            else op == RdUnlock && Accounts(v, c', owedReaders, owedWriters)
  {
  }

  /** An unlock turns its grant into wakes owed, and hands over only when nothing is owed already. */
  lemma UnlockAccounts(op: Op, w: Word, c: Census, owedReaders: nat, owedWriters: nat, w': Word, pc: Fiber)
    requires Accounts(w, c, owedReaders, owedWriters) && (op == RdUnlock || op == WrUnlock)
    requires (w', pc) == Attempt(op, w)
    requires if op == RdUnlock then c.readers > 0 else c.writers > 0
    ensures SwapKeeps(c, owedReaders, owedWriters, RoleOf(Loading(op)), w', pc) && RoleOf(pc) == Neutral
  {
    var v := if op == RdUnlock then w.(readers := Dec(w.readers)) else w.(writeLocked := false);
    var c' := Add(c, RoleOf(Loading(op)), -1);
    Released(op, w, c, owedReaders, owedWriters, v, c');
    if v.readers == 0 {
      HandOverAccounts(v, c', w', pc);
    }
  }

  /** One fiber changes role, the word and the debts change with it. */
  lemma MovedWord(s: State, s': State, f: Tid, pc: Fiber)
    requires f < |s.fibers| < LIMIT && s'.fibers == s.fibers[f := pc]
    requires var c := Add(Add(Tally(s.fibers), RoleOf(s.fibers[f]), -1), RoleOf(pc), 1);
      Accounts(s'.word, c, s'.owedReaders, s'.owedWriters)
    ensures WordInv(s')
  {
    MoveAll(s.fibers, f, pc);
  }

  /** A census of which a fiber in role r is part, with room for the fiber elsewhere. */
  ghost predicate Counts(c: Census, r: Role) {
    && Total(c) < LIMIT && (r == Neutral ==> Total(c) + 1 < LIMIT)
    && (r == Reader ==> c.readers > 0) && (r == Writer ==> c.writers > 0)
  }

  lemma SwapAccounts(op: Op, w: Word, c: Census, owedReaders: nat, owedWriters: nat, r: Role, w': Word, pc: Fiber)
    requires Accounts(w, c, owedReaders, owedWriters) && r == RoleOf(Loading(op)) && Counts(c, r)
    requires !Refuses(op, w) && (w', pc) == Attempt(op, w)
    ensures SwapKeeps(c, owedReaders, owedWriters, r, w', pc)
  {
    if r == Neutral {
      LockKeeps(op, w, c, owedReaders, owedWriters, w', pc);
    } else {
      UnlockAccounts(op, w, c, owedReaders, owedWriters, w', pc);
    }
  }

  lemma SwapFits(s: State, f: Tid, op: Op, c: Census, r: Role, w: Word, pc: Fiber)
    requires WordInv(s) && c == Tally(s.fibers) && f < |s.fibers| && s.fibers[f] == Swapping(op, s.word)
    requires r == RoleOf(Loading(op)) == RoleOf(s.fibers[f])
    requires !Refuses(op, s.word) && (w, pc) == Attempt(op, s.word)
    ensures SwapKeeps(c, s.owedReaders, s.owedWriters, r, w, pc)
  {
    Bounds(s.fibers, f);
    SwapAccounts(op, s.word, c, s.owedReaders, s.owedWriters, r, w, pc);
  }

  lemma InstalledWord(s: State, f: Tid, w: Word, pc: Fiber, c: Census, r: Role)
    requires f < |s.fibers| < LIMIT && c == Tally(s.fibers) && r == RoleOf(s.fibers[f])
    requires SwapKeeps(c, s.owedReaders, s.owedWriters, r, w, pc)
    ensures WordInv(Installed(s, f, w, pc))
  {
    MovedWord(s, Installed(s, f, w, pc), f, pc);
  }

  /** A step that leaves the word and the debts alone and keeps the fiber in its role. */
  lemma SameRoleWord(s: State, s': State, f: Tid, pc: Fiber)
    requires WordInv(s) && f < |s.fibers| && s'.fibers == s.fibers[f := pc] && RoleOf(pc) == RoleOf(s.fibers[f])
    requires s'.word == s.word && s'.owedReaders == s.owedReaders && s'.owedWriters == s.owedWriters
    ensures WordInv(s')
  {
    MovedWord(s, s', f, pc);
  }

  /** Waking one fiber turns a waiter into a holder and a debt into a grant. */
  lemma WakeTally(fs: seq<Fiber>, g: Tid, granted: Fiber, f: Tid, pc: Fiber)
    requires f < |fs| && g < |fs| && f != g
    requires RoleOf(fs[f]) == RoleOf(pc) == Neutral
    ensures Tally(fs[g := granted][f := pc]) == Add(Add(Tally(fs), RoleOf(fs[g]), -1), RoleOf(granted), 1)
  {
    MoveAll(fs, g, granted);
    MoveAll(fs[g := granted], f, pc);
  }

  lemma WakeAccounts(w: Word, c: Census, owedReaders: nat, owedWriters: nat)
    requires Accounts(w, c, owedReaders, owedWriters)
    ensures owedReaders > 0 ==> Accounts(w, Add(Add(c, ReadWaiter, -1), Reader, 1), owedReaders - 1, owedWriters)
    ensures owedWriters > 0 ==> Accounts(w, Add(Add(c, WriteWaiter, -1), Writer, 1), owedReaders, owedWriters - 1)
  {
  }

  lemma WakeReaderWord(s: State, f: Tid, n: nat, c: Census)
    requires WordInv(s) && c == Tally(s.fibers)
    requires f < |s.fibers| && s.fibers[f] == WakingReaders(n) && n == s.owedReaders > 0
    requires s.readQueue != [] && s.readQueue[0] < |s.fibers| && s.fibers[s.readQueue[0]] == ReadParked
    ensures WordInv(WakeReader(s, f, n))
  {
    WakeTally(s.fibers, s.readQueue[0], Reading, f, if n == 1 then Away else WakingReaders(n - 1));
    WakeAccounts(s.word, c, s.owedReaders, s.owedWriters);
  }

  lemma WakeWriterWord(s: State, f: Tid, c: Census)
    requires WordInv(s) && c == Tally(s.fibers)
    requires f < |s.fibers| && s.fibers[f] == WakingWriter && s.owedWriters == 1
    requires s.writeQueue != [] && s.writeQueue[0] < |s.fibers| && s.fibers[s.writeQueue[0]] == WriteParked
    ensures WordInv(WakeWriter(s, f))
  {
    WakeTally(s.fibers, s.writeQueue[0], Writing, f, Away);
    WakeAccounts(s.word, c, s.owedReaders, s.owedWriters);
  }

  lemma FreshWord(s: State, s': State)
    requires WordInv(s) && Fresh(s, s')
    ensures WordInv(s')
  {
    Arrive(s.fibers, Away, Is(Reader));
    Arrive(s.fibers, Away, Is(Writer));
    Arrive(s.fibers, Away, Is(ReadWaiter));
    Arrive(s.fibers, Away, Is(WriteWaiter));
  }

  // ---------------------------------------------------------------- the queues

  /** Popping a queue and resuming the popped fiber, then the popper's own move. */
  lemma WakeQueues(s: State, s': State, f: Tid)
    requires QueuesInv(s) && Step(s, s', f) && s' != s
    requires IsWaking(s.fibers[f])
    ensures QueuesInv(s')
  {
    if s.fibers[f].WakingReaders? {
      var g := s.readQueue[0];
      Parking.Unpark(s.fibers, s.readQueue, ReadParked, Reading);
      Parking.Frame(s.fibers, s.writeQueue, WriteParked, g, Reading);
      Parking.Frame(s.fibers[g := Reading], s'.readQueue, ReadParked, f, s'.fibers[f]);
      Parking.Frame(s.fibers[g := Reading], s'.writeQueue, WriteParked, f, s'.fibers[f]);
    } else {
      var g := s.writeQueue[0];
      Parking.Unpark(s.fibers, s.writeQueue, WriteParked, Writing);
      Parking.Frame(s.fibers, s.readQueue, ReadParked, g, Writing);
      Parking.Frame(s.fibers[g := Writing], s'.readQueue, ReadParked, f, Away);
      Parking.Frame(s.fibers[g := Writing], s'.writeQueue, WriteParked, f, Away);
    }
  }

  lemma StepQueues(s: State, s': State, f: Tid)
    requires QueuesInv(s) && Step(s, s', f)
    ensures QueuesInv(s')
  {
    match s.fibers[f]
    case ReadRegistered =>
      Parking.Park(s.fibers, s.readQueue, ReadParked, f);
      Parking.Frame(s.fibers, s.writeQueue, WriteParked, f, ReadParked);
    case WriteRegistered =>
      Parking.Park(s.fibers, s.writeQueue, WriteParked, f);
      Parking.Frame(s.fibers, s.readQueue, ReadParked, f, WriteParked);
    case WakingReaders(_) => if s' != s { WakeQueues(s, s', f); }
    case WakingWriter => if s' != s { WakeQueues(s, s', f); }
    case ReadParked =>
    case WriteParked =>
    case _ =>
      Parking.Frame(s.fibers, s.readQueue, ReadParked, f, s'.fibers[f]);
      Parking.Frame(s.fibers, s.writeQueue, WriteParked, f, s'.fibers[f]);
  }

  // ---------------------------------------------------------------- steps keep the invariant

  /** A step that is neither a swap nor a wake. */
  ghost predicate Plain(s: State, s': State, f: Tid) {
    && f < |s.fibers| && |s'.fibers| == |s.fibers|
    && s'.fibers == s.fibers[f := s'.fibers[f]] && RoleOf(s'.fibers[f]) == RoleOf(s.fibers[f])
    && s'.word == s.word && s'.owedReaders == s.owedReaders && s'.owedWriters == s.owedWriters
    && s'.readWaker == s.readWaker && s'.writeWaker == s.writeWaker
    && !IsWaking(s.fibers[f]) && !IsWaking(s'.fibers[f])
  }

  ghost predicate IsWaking(pc: Fiber) { pc.WakingReaders? || pc.WakingWriter? }

  ghost predicate WinsSwap(s: State, f: Tid) {
    f < |s.fibers| && var pc := s.fibers[f]; pc.Swapping? && !Refuses(pc.op, pc.snapshot) && s.word == pc.snapshot
  }

  lemma StepKinds(s: State, s': State, f: Tid)
    requires Step(s, s', f)
    ensures WinsSwap(s, f) || IsWaking(s.fibers[f]) || Plain(s, s', f)
  {
  }

  /** A waker pops the fiber at the front of its queue, which is parked. */
  lemma WakeWord(s: State, s': State, f: Tid)
    requires Step(s, s', f) && WordInv(s) && WakerNamed(s, f) && QueuesInv(s) && IsWaking(s.fibers[f]) && s' != s
    requires s.owedWriters <= 1 && (s.writeWaker.Some? ==> s.owedWriters == 1)
    ensures WordInv(s')
  {
    match s.fibers[f]
    case WakingReaders(n) => WakeReaderWord(s, f, n, Tally(s.fibers));
    case WakingWriter => WakeWriterWord(s, f, Tally(s.fibers));
  }

  /** What a winning swap installs. */
  lemma SwapInstalls(s: State, s': State, f: Tid) returns (op: Op, w: Word, pc: Fiber)
    requires Step(s, s', f) && WinsSwap(s, f)
    ensures s.fibers[f] == Swapping(op, s.word) && !Refuses(op, s.word)
    ensures (w, pc) == Attempt(op, s.word) && s' == Installed(s, f, w, pc)
  {
    op := s.fibers[f].op;
    w, pc := Attempt(op, s.word).0, Attempt(op, s.word).1;
  }

  lemma SwapWord(s: State, f: Tid, op: Op, w: Word, pc: Fiber)
    requires WordInv(s) && f < |s.fibers| && s.fibers[f] == Swapping(op, s.word)
    requires !Refuses(op, s.word) && (w, pc) == Attempt(op, s.word)
    ensures WordInv(Installed(s, f, w, pc))
  {
    var c, r := Tally(s.fibers), RoleOf(s.fibers[f]);
    SwapFits(s, f, op, c, r, w, pc);
    InstalledWord(s, f, w, pc, c, r);
  }

  lemma SwapWakers(s: State, f: Tid, op: Op, w: Word, pc: Fiber)
    requires WordInv(s) && WakerInv(s) && f < |s.fibers| && s.fibers[f] == Swapping(op, s.word)
    requires !Refuses(op, s.word) && (w, pc) == Attempt(op, s.word)
    ensures WakerInv(Installed(s, f, w, pc))
  {
    SwapFits(s, f, op, Tally(s.fibers), RoleOf(s.fibers[f]), w, pc);
    InstalledWakers(s, f, w, pc);
  }

  lemma StepWord(s: State, s': State, f: Tid)
    requires WordInv(s) && WakerInv(s) && QueuesInv(s) && Step(s, s', f)
    ensures WordInv(s')
  {
    StepKinds(s, s', f);
    if WinsSwap(s, f) {
      var op, w, pc := SwapInstalls(s, s', f);
      SwapWord(s, f, op, w, pc);
    } else if !IsWaking(s.fibers[f]) {
      SameRoleWord(s, s', f, s'.fibers[f]);
    } else if s' != s {
      assert WakerNamed(s, f);
      WakeWord(s, s', f);
    }
  }

  lemma QuietWakers(s: State, s': State, f: Tid, pc: Fiber)
    requires WakerInv(s) && f < |s.fibers| && s'.fibers == s.fibers[f := pc]
    requires s'.owedReaders == s.owedReaders && s'.readWaker == s.readWaker
    requires s'.owedWriters == s.owedWriters && s'.writeWaker == s.writeWaker
    requires !IsWaking(s.fibers[f]) && !IsWaking(pc)
    ensures WakerInv(s')
  {
    forall g | 0 <= g < |s'.fibers| ensures WakerNamed(s', g) {
      assert WakerNamed(s, g);
    }
  }

  lemma InstalledWakers(s: State, f: Tid, w: Word, pc: Fiber)
    requires WakerInv(s) && f < |s.fibers| && !IsWaking(s.fibers[f])
    requires pc.WakingReaders? ==> s.owedReaders == 0 && pc.n > 0
    requires pc.WakingWriter? ==> s.owedWriters == 0
    ensures WakerInv(Installed(s, f, w, pc))
  {
    var s' := Installed(s, f, w, pc);
    forall g | 0 <= g < |s'.fibers| ensures WakerNamed(s', g) {
      assert WakerNamed(s, g);
    }
  }

  lemma WakeWakers(s: State, s': State, f: Tid)
    requires WakerInv(s) && QueuesInv(s) && Step(s, s', f) && s' != s
    requires IsWaking(s.fibers[f])
    ensures WakerInv(s')
  {
    assert WakerNamed(s, f);
    forall g | 0 <= g < |s'.fibers| ensures WakerNamed(s', g) {
      assert WakerNamed(s, g);
    }
  }

  lemma StepWakers(s: State, s': State, f: Tid)
    requires WordInv(s) && WakerInv(s) && QueuesInv(s) && Step(s, s', f)
    ensures WakerInv(s')
  {
    StepKinds(s, s', f);
    if WinsSwap(s, f) {
      var op, w, pc := SwapInstalls(s, s', f);
      SwapWakers(s, f, op, w, pc);
    } else if !IsWaking(s.fibers[f]) {
      QuietWakers(s, s', f, s'.fibers[f]);
    } else if s' != s {
      WakeWakers(s, s', f);
    }
  }

  /** The word as a holder must find it. */
  ghost predicate ShowsHolder(w: Word, r: Role) {
    && (r == Reader ==> w.readers > 0 && !w.writeLocked)
    && (r == Writer ==> w.readers == 0 && w.writeLocked)
  }

  lemma HolderSeen(s: State, f: Tid)
    requires WordInv(s) && f < |s.fibers|
    ensures ShowsHolder(s.word, RoleOf(s.fibers[f]))
  {
    Bounds(s.fibers, f);
  }

  lemma StepSnapshots(s: State, s': State, f: Tid)
    requires SnapshotsInv(s.fibers) && Step(s, s', f) && ShowsHolder(s.word, RoleOf(s.fibers[f]))
    ensures SnapshotsInv(s'.fibers)
  {
  }

  lemma NextKeeps(s: State, s': State)
    requires Inv(s) && Next(s, s')
    ensures Inv(s')
  {
    if Fresh(s, s') {
      FreshWord(s, s');
      forall g | 0 <= g < |s.fibers| ensures WakerNamed(s', g) {
        assert WakerNamed(s, g);
      }
    } else {
      var f :| Step(s, s', f);
      StepWord(s, s', f);
      StepQueues(s, s', f);
      StepWakers(s, s', f);
      HolderSeen(s, f);
      StepSnapshots(s, s', f);
    }
  }

  lemma InitInv(s: State)
    requires Init(s)
    ensures Inv(s)
  {
    assert WakerInv(s);
    assert QueuesInv(s);
    assert SnapshotsInv(s.fibers);
    assert WordInv(s) by {
      assert Tally(s.fibers) == Census(0, 0, 0, 0);
    }
  }

  lemma RunInv(run: seq<State>, i: nat)
    requires IsRun(Init, Next, run) && i < |run|
    ensures Inv(run[i])
  {
    forall s | Init(s) ensures Inv(s) { InitInv(s); }
    forall s, s' | Inv(s) && Next(s, s') ensures Inv(s') { NextKeeps(s, s'); }
    Invariance(Init, Next, Inv, run, i);
  }

  // ---------------------------------------------------------------- theorems

  /** The word, field by field, in terms of the fibers: grants plus wakes owed, and waiters less wakes owed. */
  lemma WordAccountsForFibers(run: seq<State>, i: nat)
    requires IsRun(Init, Next, run) && i < |run|
    ensures var s := run[i];
      && s.word.readers == Count(s.fibers, Is(Reader)) + s.owedReaders
      && (if s.word.writeLocked then 1 else 0) == Count(s.fibers, Is(Writer)) + s.owedWriters
      && Count(s.fibers, Is(ReadWaiter)) == s.word.waitingReaders + s.owedReaders
      && Count(s.fibers, Is(WriteWaiter)) == s.word.waitingWriters + s.owedWriters
      && InRange(s.word)
  {
    RunInv(run, i);
    Partition(run[i].fibers);
  }

  /** A granted writer excludes every other grant. */
  lemma WriterExcludesAll(run: seq<State>, i: nat, f: Tid, g: Tid)
    requires IsRun(Init, Next, run) && i < |run| && f < |run[i].fibers| && g < |run[i].fibers| && f != g
    requires RoleOf(run[i].fibers[f]) == Writer
    ensures RoleOf(run[i].fibers[g]) != Reader && RoleOf(run[i].fibers[g]) != Writer
  {
    RunInv(run, i);
    var fs := run[i].fibers;
    Bounds(fs, f);
    Bounds(fs, g);
    if RoleOf(fs[g]) == Writer {
      Two(fs, if f < g then f else g, if f < g then g else f, Is(Writer));
    }
  }

  /** No waiter is stranded: while a fiber waits, some fiber holds the lock or is handing it over. */
  lemma NoStrandedWaiter(run: seq<State>, i: nat, f: Tid)
    requires IsRun(Init, Next, run) && i < |run| && f < |run[i].fibers|
    requires RoleOf(run[i].fibers[f]) == ReadWaiter || RoleOf(run[i].fibers[f]) == WriteWaiter
    ensures exists g :: 0 <= g < |run[i].fibers| && HoldsOrHandsOver(run[i].fibers[g])
  {
    RunInv(run, i);
    var s := run[i];
    Positive(s.fibers, f, Is(RoleOf(s.fibers[f])));
    if s.readWaker.Some? {
      assert HoldsOrHandsOver(s.fibers[s.readWaker.value]);
    } else if s.writeWaker.Some? {
      assert HoldsOrHandsOver(s.fibers[s.writeWaker.value]);
    } else if Count(s.fibers, Is(Reader)) > 0 {
      Witness(s.fibers, Is(Reader));
    } else {
      Witness(s.fibers, Is(Writer));
    }
  }

  ghost predicate HoldsOrHandsOver(pc: Fiber) {
    RoleOf(pc) == Reader || RoleOf(pc) == Writer || pc.WakingReaders? || pc.WakingWriter?
  }

  /** Each waiter queue has at most one fiber popping it, as the single-consumer FIFO demands; and a popper
      never waits for more fibers than are on their way. */
  lemma SinglePopper(run: seq<State>, i: nat, f: Tid, g: Tid)
    requires IsRun(Init, Next, run) && i < |run| && f < |run[i].fibers| && g < |run[i].fibers|
    ensures var fs := run[i].fibers;
      && (fs[f].WakingReaders? && fs[g].WakingReaders? ==> f == g)
      && (fs[f].WakingWriter? && fs[g].WakingWriter? ==> f == g)
      && (fs[f].WakingReaders? ==> 0 < fs[f].n <= Count(fs, Is(ReadWaiter)))
      && (fs[f].WakingWriter? ==> 0 < Count(fs, Is(WriteWaiter)))
  {
    RunInv(run, i);
    assert WakerNamed(run[i], f) && WakerNamed(run[i], g);
  }

  /** The assertions in both unlock operations never fail. */
  lemma UnlockAssertionsHold(run: seq<State>, i: nat, f: Tid)
    requires IsRun(Init, Next, run) && i < |run| && f < |run[i].fibers| && run[i].fibers[f].Swapping?
    ensures var pc := run[i].fibers[f];
      && (pc.op == RdUnlock ==> pc.snapshot.readers > 0 && !pc.snapshot.writeLocked)
      && (pc.op == WrUnlock ==> pc.snapshot.readers == 0 && pc.snapshot.writeLocked)
  {
    RunInv(run, i);
    assert SnapshotInv(run[i].fibers[f]);
  }

  /** A fiber with a queue to pop. */
  ghost predicate CanWake(s: State, f: Tid) {
    && f < |s.fibers|
    && ((s.fibers[f].WakingReaders? && s.readQueue != []) || (s.fibers[f].WakingWriter? && s.writeQueue != []))
  }

  /** Only parked fibers wait; every other fiber has a step to take, and a waker with a queued fiber can wake it. */
  lemma NeverStuck(run: seq<State>, i: nat, f: Tid)
    requires IsRun(Init, Next, run) && i < |run| && f < |run[i].fibers|
    requires !run[i].fibers[f].ReadParked? && !run[i].fibers[f].WriteParked?
    ensures exists s' :: Step(run[i], s', f) && (CanWake(run[i], f) ==> s' != run[i])
  {
    RunInv(run, i);
    assert WakerNamed(run[i], f);
    var s' := GoesOn(run[i], f);
  }

  /** Between operations, parked, or with nobody to wake yet. */
  ghost predicate Rests(s: State, f: Tid)
    requires f < |s.fibers|
  {
    var pc := s.fibers[f];
    || pc.Away? || pc.Reading? || pc.Writing? || pc.ReadParked? || pc.WriteParked?
    || (IsWaking(pc) && !CanWake(s, f))
  }

  /** How many of its own steps a fiber is from resting at most. */
  ghost function Distance(s: State, pc: Fiber): nat {
    match pc
    case Loading(_) => 2 + s.word.waitingReaders + 1
    case Swapping(op, snapshot) =>
      if Refuses(op, snapshot) || s.word == snapshot then 2 + s.word.waitingReaders else 4 + s.word.waitingReaders
    case ReadRegistered => 1
    case WriteRegistered => 1
    case WakingReaders(n) => n + 1
    case WakingWriter => 1
    case _ => 0
  }

  lemma GoesOn(s: State, f: Tid) returns (s': State)
    requires f < |s.fibers| && WakerNamed(s, f) && (s.readWaker.Some? ==> s.owedReaders > 0) && QueuesInv(s)
    requires !s.fibers[f].ReadParked? && !s.fibers[f].WriteParked?
    ensures Step(s, s', f) && (CanWake(s, f) ==> s' != s)
    ensures |s'.fibers| == |s.fibers| && (Rests(s, f) || Distance(s', s'.fibers[f]) < Distance(s, s.fibers[f]))
  {
    match s.fibers[f]
    case Away => s' := Goto(s, f, Loading(RdLock));
    case Reading => s' := Goto(s, f, Loading(RdUnlock));
    case Writing => s' := Goto(s, f, Loading(WrUnlock));
    case Loading(op) => s' := Goto(s, f, Swapping(op, s.word));
    case Swapping(op, snapshot) =>
      var (w, pc) := Attempt(op, s.word);
      s' := if Refuses(op, snapshot) then Goto(s, f, Away)
            else if s.word != snapshot then Goto(s, f, Loading(op)) else Installed(s, f, w, pc);
    case ReadRegistered => s' := ReadParks(s, f);
    case WriteRegistered => s' := WriteParks(s, f);
    case WakingReaders(n) =>
      s' := s;
      if s.readQueue != [] {
        assert s.readQueue[0] in s.readQueue;
        s' := WakeReader(s, f, n);
        assert |s'.readQueue| < |s.readQueue|;
      }
    case WakingWriter =>
      s' := s;
      if s.writeQueue != [] {
        assert s.writeQueue[0] in s.writeQueue;
        s' := WakeWriter(s, f);
        assert |s'.writeQueue| < |s.writeQueue|;
      }
  }

  // ---------------------------------------------------------------- what the operations answer

  /** Nobody writes or waits to write, and every reader still waiting is already being woken. */
  ghost predicate OpenToReaders(s: State) {
    && Count(s.fibers, Is(Writer)) == 0 && Count(s.fibers, Is(WriteWaiter)) == 0
    && Count(s.fibers, Is(ReadWaiter)) == s.owedReaders
  }

  /** Nobody holds the lock or waits for it. */
  ghost predicate Unused(s: State) {
    forall f :: 0 <= f < |s.fibers| ==> RoleOf(s.fibers[f]) == Neutral
  }

  lemma OpenExactly(s: State)
    requires WordInv(s)
    ensures OpenToReaders(s) <==> !s.word.writeLocked && s.word.waitingWriters == 0 && s.word.waitingReaders == 0
  {
  }

  lemma NoneInRole(fs: seq<Fiber>, r: Role)
    ensures Count(fs, Is(r)) == 0 <==> forall f :: 0 <= f < |fs| ==> RoleOf(fs[f]) != r
  {
    if Count(fs, Is(r)) > 0 {
      Witness(fs, Is(r));
    }
    forall f | 0 <= f < |fs| && RoleOf(fs[f]) == r ensures Count(fs, Is(r)) > 0 {
      Positive(fs, f, Is(r));
    }
  }

  lemma UnusedCounts(s: State)
    ensures Unused(s) <==> Tally(s.fibers) == Census(0, 0, 0, 0)
  {
    NoneInRole(s.fibers, Reader);
    NoneInRole(s.fibers, Writer);
    NoneInRole(s.fibers, ReadWaiter);
    NoneInRole(s.fibers, WriteWaiter);
  }

  lemma UnusedExactly(s: State)
    requires WordInv(s)
    ensures Unused(s) <==> s.word == FREE
  {
    UnusedCounts(s);
  }

  /** Readers share: a reader whose word is current is granted exactly when nobody writes or waits and no reader waits
      unserved; otherwise rdlock registers it as a waiter and tryrdlock gives up. */
  lemma ReadGrantedExactly(run: seq<State>, i: nat, f: Tid, op: Op)
    requires IsRun(Init, Next, run) && i + 1 < |run| && Step(run[i], run[i + 1], f)
    requires run[i].fibers[f] == Swapping(op, run[i].word) && (op == RdLock || op == TryRdLock)
    ensures |run[i + 1].fibers| == |run[i].fibers|
    ensures run[i + 1].fibers[f] ==
      if OpenToReaders(run[i]) then Reading else if op == RdLock then ReadRegistered else Away
  {
    RunInv(run, i);
    OpenExactly(run[i]);
  }

  /** A writer whose word is current is granted exactly when the lock is unused; otherwise wrlock registers it as a
      waiter and trywrlock gives up. */
  lemma WriteGrantedExactly(run: seq<State>, i: nat, f: Tid, op: Op)
    requires IsRun(Init, Next, run) && i + 1 < |run| && Step(run[i], run[i + 1], f)
    requires run[i].fibers[f] == Swapping(op, run[i].word) && (op == WrLock || op == TryWrLock)
    ensures |run[i + 1].fibers| == |run[i].fibers|
    ensures run[i + 1].fibers[f] ==
      if Unused(run[i]) then Writing else if op == WrLock then WriteRegistered else Away
  {
    RunInv(run, i);
    UnusedExactly(run[i]);
  }

  /** A word that has changed since state j, where it was loaded, makes every operation load it again, except that a
      try-lock refused by what it loaded gives up. */
  lemma StaleWordRetries(run: seq<State>, j: nat, i: nat, f: Tid, op: Op)
    requires IsRun(Init, Next, run) && j <= i && i + 1 < |run| && Step(run[i], run[i + 1], f)
    requires run[i].fibers[f] == Swapping(op, run[j].word) && run[j].word != run[i].word
    ensures |run[i + 1].fibers| == |run[i].fibers|
    ensures var refused := (op == TryRdLock && !OpenToReaders(run[j])) || (op == TryWrLock && !Unused(run[j]));
      run[i + 1].fibers[f] == if refused then Away else Loading(op)
  {
    RunInv(run, j);
    OpenExactly(run[j]);
    UnusedExactly(run[j]);
  }

  /** Whom an unlock serves: nobody while other readers hold or are being granted the lock; else one waiting writer if
      there is any; else all waiting readers together. */
  ghost function Served(s: State, op: Op): Fiber {
    if op == RdUnlock && Count(s.fibers, Is(Reader)) + s.owedReaders > 1 then Away
    else if Count(s.fibers, Is(WriteWaiter)) > 0 then WakingWriter
    else if Count(s.fibers, Is(ReadWaiter)) > 0 then WakingReaders(Count(s.fibers, Is(ReadWaiter)))
    else Away
  }

  lemma UnlockServesExactly(run: seq<State>, i: nat, f: Tid, op: Op)
    requires IsRun(Init, Next, run) && i + 1 < |run| && Step(run[i], run[i + 1], f)
    requires run[i].fibers[f] == Swapping(op, run[i].word) && (op == RdUnlock || op == WrUnlock)
    ensures |run[i + 1].fibers| == |run[i].fibers| && run[i + 1].fibers[f] == Served(run[i], op)
  {
    RunInv(run, i);
    ServedExactly(run[i], f, op, Tally(run[i].fibers));
    SwapTakes(run[i], run[i + 1], f, op);
  }

  /** An unlock whose word is current installs what it attempted. */
  lemma SwapTakes(s: State, s': State, f: Tid, op: Op)
    requires Step(s, s', f) && s.fibers[f] == Swapping(op, s.word) && (op == RdUnlock || op == WrUnlock)
    ensures |s'.fibers| == |s.fibers| && s'.fibers[f] == Attempt(op, s.word).1
  {
  }

  lemma ServedExactly(s: State, f: Tid, op: Op, c: Census)
    requires WordInv(s) && c == Tally(s.fibers) && f < |s.fibers| && (op == RdUnlock || op == WrUnlock)
    requires RoleOf(s.fibers[f]) == RoleOf(Loading(op))
    ensures Attempt(op, s.word).1 == Served(s, op)
  {
    Bounds(s.fibers, f);
  }

  // ---------------------------------------------------------------- progress

  ghost predicate CanFinish(s: State, f: Tid, k: nat)
    decreases k
  {
    f < |s.fibers| && (Rests(s, f) || (k > 0 && exists s' :: Step(s, s', f) && CanFinish(s', f, k - 1)))
  }

  lemma StepKeeps(s: State, s': State, f: Tid)
    requires Inv(s) && Step(s, s', f)
    ensures Inv(s')
  {
    NextKeeps(s, s');
  }

  lemma {:induction false} Finishes(s: State, f: Tid, k: nat)
    requires Inv(s) && f < |s.fibers| && Distance(s, s.fibers[f]) <= k
    ensures CanFinish(s, f, k)
    decreases k
  {
    if !Rests(s, f) {
      assert WakerNamed(s, f);
      var s' := GoesOn(s, f);
      StepKeeps(s, s', f);
      Finishes(s', f, k - 1);
    }
  }

  /** From every reachable state every fiber comes to rest by its own steps alone: its lock operation is decided, its
      unlock has served everyone queued, or it has parked. */
  lemma CompletesAlone(run: seq<State>, i: nat, f: Tid)
    requires IsRun(Init, Next, run) && i < |run| && f < |run[i].fibers|
    ensures CanFinish(run[i], f, Distance(run[i], run[i].fibers[f]))
  {
    RunInv(run, i);
    Finishes(run[i], f, Distance(run[i], run[i].fibers[f]));
  }

  // ---------------------------------------------------------------- the order of waking

  ghost predicate InTurn(s: State) {
    Parking.InTurn(s.readQueue, s.readers) && Parking.InTurn(s.writeQueue, s.writers)
  }

  lemma StepTurns(s: State, s': State, f: Tid)
    requires Step(s, s', f)
    ensures Parking.TurnStep(s.readQueue, s.readers, s'.readQueue, s'.readers, f)
    ensures Parking.TurnStep(s.writeQueue, s.writers, s'.writeQueue, s'.writers, f)
  {
  }

  lemma TurnsKept(s: State, s': State)
    requires InTurn(s) && Next(s, s')
    ensures InTurn(s')
  {
    if !Fresh(s, s') {
      var f :| Step(s, s', f);
      StepTurns(s, s', f);
      Parking.TurnKept(s.readQueue, s.readers, s'.readQueue, s'.readers, f);
      Parking.TurnKept(s.writeQueue, s.writers, s'.writeQueue, s'.writers, f);
    }
  }

  /** Waiters are woken in the order in which they entered their queue. */
  lemma WokenInOrder(run: seq<State>, i: nat)
    requires IsRun(Init, Next, run) && i < |run|
    ensures run[i].readers.arrived == run[i].readers.woken + run[i].readQueue
    ensures run[i].writers.arrived == run[i].writers.woken + run[i].writeQueue
  {
    forall s, s' | InTurn(s) && Next(s, s') ensures InTurn(s') { TurnsKept(s, s'); }
    Invariance(Init, Next, InTurn, run, i);
  }
}
