/** What each call on the descriptor table brings about, bit by bit, and when an open is denied after a run. */
module FileLaws {
  import opened CInt
  import opened Files

  /** Only slot k may differ. */
  ghost predicate OthersKept(t: Table, u: Table, k: nat) {
    |u.slots| == |t.slots| && forall i :: 0 <= i < |t.slots| && i != k ==> u.slots[i] == t.slots[i]
  }

  // ---------- one call ----------

  lemma InitialIs(size: nat, nullDev: nat)
    requires 3 <= size && nullDev > 0
    ensures var t := Initial(size, nullDev);
            && |t.slots| == size && t.maxFd == -1
            && forall i :: 0 <= i < size ==> t.slots[i].flags == 0 && t.slots[i].dev == if i < 3 then nullDev else 0
  {
  }

  lemma UnlockedBits(f: Flags)
    ensures (f & !EXCL) & EXCL == 0 && (f & !EXCL) & !EXCL == f & !EXCL
  {
  }

  lemma LockedBits(f: Flags)
    ensures (f | EXCL) & EXCL != 0 && (f | EXCL) & !EXCL == f & !EXCL
  {
  }

  /** Unlocking unlocks, and changes nothing else. */
  lemma UnlockUnlocks(t: Table, k: nat)
    requires Inv(t) && Legal(t, Unlock(k))
    ensures var u := Next(t, Unlock(k));
            && !Locked(u.slots[k]) && u.slots[k].dev == t.slots[k].dev
            && u.slots[k].flags & !EXCL == t.slots[k].flags & !EXCL
            && OthersKept(t, u, k) && u.maxFd == t.maxFd
  {
    UnlockedBits(t.slots[k].flags);
  }

  /** Locking, unless refused, locks, and changes nothing else; refused, it changes nothing. */
  lemma LockLocks(t: Table, k: nat)
    requires Inv(t) && Legal(t, Lock(k))
    ensures var u := Next(t, Lock(k));
            if LockRefused(t, k) then u == t
            else
              && Locked(u.slots[k]) && u.slots[k].dev == t.slots[k].dev
              && u.slots[k].flags & !EXCL == t.slots[k].flags & !EXCL
              && OthersKept(t, u, k) && u.maxFd == t.maxFd
  {
    LockedBits(t.slots[k].flags);
  }

  lemma MergedBits(was: Flags, arg: Flags)
    ensures Merged(was, arg) & SETTABLE == arg & SETTABLE
    ensures Merged(was, arg) & !SETTABLE == was & !SETTABLE
  {
  }

  /** Setting flags makes the settable ones what is asked for, each of them, and changes nothing else. */
  lemma SetFlSets(t: Table, fd: nat, arg: Flags)
    requires Inv(t) && Legal(t, SetFl(fd, arg))
    ensures var u := Next(t, SetFl(fd, arg));
            && u.slots[fd].flags & SETTABLE == arg & SETTABLE
            && u.slots[fd].flags & !SETTABLE == t.slots[fd].flags & !SETTABLE
            && u.slots[fd].dev == t.slots[fd].dev && OthersKept(t, u, fd) && u.maxFd == t.maxFd
  {
    MergedBits(t.slots[fd].flags, arg);
  }

  /** Closing frees the descriptor unless it is one of the reserved ones, and changes nothing else. */
  lemma CloseFrees(t: Table, fd: nat, hook: int)
    requires Inv(t) && Legal(t, Close(fd, hook))
    ensures var u := Next(t, Close(fd, hook));
            && (u.slots[fd].dev == 0 <==> fd > 2) && (fd > 2 ==> u.slots[fd].flags == 0) && (fd <= 2 ==> u == t)
            && OthersKept(t, u, fd) && u.maxFd == t.maxFd
  {
  }

  lemma OpenLockBit(isFs: bool, flags: Flags)
    ensures OpenFlags(isFs, flags) & EXCL == 0
  {
    MaskBits(flags);
  }

  lemma OpenDevBit(isFs: bool, flags: Flags)
    ensures OpenFlags(isFs, flags) & DEV != 0 <==> !isFs
  {
  }

  /** The other bits are the caller's. */
  lemma OpenOtherBits(isFs: bool, flags: Flags)
    ensures OpenFlags(isFs, flags) & !FLAGS_MASK == flags & !FLAGS_MASK
  {
    if isFs {
      FsOtherBits(flags);
    } else {
      DevOtherBits(flags);
    }
  }

  lemma FsOtherBits(flags: Flags)
    ensures (flags & !FLAGS_MASK) & !FLAGS_MASK == flags & !FLAGS_MASK
  {
  }

  lemma DevOtherBits(flags: Flags)
    ensures ((flags & !FLAGS_MASK) | DEV) & !FLAGS_MASK == flags & !FLAGS_MASK
  {
  }

  /** Some descriptor of the device is locked. */
  ghost predicate DeviceLocked(t: Table, dev: nat) {
    exists k :: 0 <= k < |t.slots| && t.slots[k].dev == dev && Locked(t.slots[k])
  }

  ghost predicate Full(t: Table) {
    forall i :: 0 <= i < |t.slots| ==> t.slots[i].dev != 0
  }

  /** Just how an open comes out: it fails for a name that is not found, for a full table, for a device with
      a locked descriptor, and if the device's own open fails, in this order; else it succeeds. */
  lemma OpenOutcome(t: Table, dev: nat, isFs: bool, flags: Flags, hook: int)
    requires Inv(t)
    ensures var (u, status) := Opened(t, dev, isFs, flags, hook);
            if dev == 0 then status == NoDevice
            else if Full(t) then status == TooMany
            else if !isFs && DeviceLocked(t, dev) then status == Denied
            else if hook < 0 then status == HookFailed
            else
              && status.Ok? && status.fd < |u.slots|
              && u.slots[status.fd] == Slot(dev, OpenFlags(isFs, flags)) && OthersKept(t, u, status.fd)
  {
    var fd := FirstFree(t.slots);
    if dev != 0 && fd < |t.slots| {
      HeldIff(t, fd, dev, OpenFlags(isFs, flags));
    }
  }

  lemma HeldIff(t: Table, fd: nat, dev: nat, flags: Flags)
    requires Inv(t) && dev != 0 && fd < |t.slots| && t.slots[fd].dev == 0
    ensures Allocated(t, fd, dev, flags).maxFd < |t.slots|
    ensures HeldByOther(Allocated(t, fd, dev, flags), fd) <==> DeviceLocked(t, dev)
  {
    var u := Allocated(t, fd, dev, flags);
    if DeviceLocked(t, dev) {
      var k :| 0 <= k < |t.slots| && t.slots[k].dev == dev && Locked(t.slots[k]);
      assert u.slots[k] == t.slots[k] && k != fd && k <= u.maxFd;
    }
    if HeldByOther(u, fd) {
      var i :| 0 <= i <= u.maxFd && i != fd && u.slots[i].dev == u.slots[fd].dev && Locked(u.slots[i]);
      assert u.slots[i] == t.slots[i];
    }
  }

  // ---------- runs ----------

  /** The call locks descriptor k. */
  ghost predicate Takes(t: Table, c: Call, k: nat)
    requires Inv(t) && Legal(t, c)
  {
    c == Lock(k) && !LockRefused(t, k)
  }

  /** A descriptor is locked after a call exactly when the call locked it, or it was locked and the call did
      not give the lock up. */
  lemma LockedNextIff(t: Table, c: Call, k: nat)
    requires Inv(t) && Legal(t, c) && k < |t.slots|
    ensures |Next(t, c).slots| == |t.slots|
    ensures Locked(Next(t, c).slots[k]) <==> Takes(t, c, k) || (Locked(t.slots[k]) && !GivesUp(c, k))
  {
    match c
    case Open(dev, isFs, flags, hook) => OpenLocksNone(t, dev, isFs, flags, hook, k);
    case Close(fd, _) => if fd == k { ZeroUnlocked(); }
    case SetFl(fd, arg) => if fd == k { MergedKeepsLockBits(t.slots[k].flags, arg); }
    case Lock(fd) => LockLocks(t, fd);
    case Unlock(fd) => UnlockUnlocks(t, fd);
  }

  lemma ZeroUnlocked()
    ensures !Locked(Slot(0, 0))
  {
  }

  lemma FreeUnlocked(t: Table, k: nat)
    requires Inv(t) && k < |t.slots| && t.slots[k].dev == 0
    ensures !Locked(t.slots[k])
  {
    MaskBits(t.slots[k].flags);
  }

  lemma OpenLocksNone(t: Table, dev: nat, isFs: bool, flags: Flags, hook: int, k: nat)
    requires Inv(t) && k < |t.slots|
    ensures var u := Opened(t, dev, isFs, flags, hook).0;
            |u.slots| == |t.slots| && (Locked(u.slots[k]) <==> Locked(t.slots[k]))
  {
    var fd := FirstFree(t.slots);
    if dev != 0 && fd < |t.slots| && k == fd {
      FreeUnlocked(t, k);
      OpenLockBit(isFs, flags);
      ZeroUnlocked();
    }
  }

  /** Some call in the run locked descriptor k, and none since gave the lock up. */
  ghost predicate TookSince(t: Table, cs: seq<Call>, k: nat)
    requires Inv(t) && LegalRun(t, cs)
    decreases |cs|
  {
    cs != [] &&
    (NextKeepsInv(t, cs[0]);
     || (Takes(t, cs[0], k) && NeverGivesUp(cs[1..], k))
     || TookSince(Next(t, cs[0]), cs[1..], k))
  }

  predicate NeverGivesUp(cs: seq<Call>, k: nat) {
    forall i :: 0 <= i < |cs| ==> !GivesUp(cs[i], k)
  }

  /** A descriptor is locked after a run exactly when some call in it took the lock and none since gave it
      up, or it was locked before and none gave it up. */
  lemma {:induction false} LockedAfterIff(t: Table, cs: seq<Call>, k: nat)
    requires Inv(t) && LegalRun(t, cs) && k < |t.slots|
    ensures |After(t, cs).slots| == |t.slots| && Inv(After(t, cs))
    ensures Locked(After(t, cs).slots[k]) <==> TookSince(t, cs, k) || (Locked(t.slots[k]) && NeverGivesUp(cs, k))
    decreases |cs|
  {
    if cs != [] {
      NextKeepsInv(t, cs[0]);
      LockedNextIff(t, cs[0], k);
      LockedAfterIff(Next(t, cs[0]), cs[1..], k);
      GivesUpFirst(cs, k);
    }
  }

  lemma GivesUpFirst(cs: seq<Call>, k: nat)
    requires cs != []
    ensures NeverGivesUp(cs, k) <==> !GivesUp(cs[0], k) && NeverGivesUp(cs[1..], k)
  {
  }

  /** Some descriptor of the device holds a lock that was taken in the run and not given up since. */
  ghost predicate DeviceTaken(t: Table, cs: seq<Call>, dev: nat)
    requires Inv(t) && LegalRun(t, cs)
  {
    exists k: nat :: k < |After(t, cs).slots| && After(t, cs).slots[k].dev == dev && TookSince(t, cs, k)
  }

  ghost function Fresh(size: nat, nullDev: nat): (t: Table)
    requires 3 <= size && nullDev > 0
    ensures Inv(t)
  {
    InitialIsGood(size, nullDev);
    Initial(size, nullDev)
  }

  /** After any run from a fresh table with room left, an open of a device is denied exactly when some
      descriptor of it took a lock that no call has given up since. */
  lemma OpenDeniedIff(size: nat, nullDev: nat, cs: seq<Call>, dev: nat, flags: Flags, hook: int)
    requires 3 <= size && nullDev > 0 && LegalRun(Fresh(size, nullDev), cs) && dev != 0
    ensures var t := Fresh(size, nullDev);
            !Full(After(t, cs)) ==>
              (Opened(After(t, cs), dev, false, flags, hook).1 == Denied <==> DeviceTaken(t, cs, dev))
  {
    var t := Fresh(size, nullDev);
    var u := After(t, cs);
    LockedAfterIff(t, cs, 0);
    OpenOutcome(u, dev, false, flags, hook);
    forall k: nat | k < |u.slots|
      ensures Locked(u.slots[k]) <==> TookSince(t, cs, k)
    {
      LockedAfterIff(t, cs, k);
      InitialIs(size, nullDev);
      FreshUnlocked(size, nullDev, k);
    }
  }

  lemma FreshUnlocked(size: nat, nullDev: nat, k: nat)
    requires 3 <= size && nullDev > 0 && k < size
    ensures !Locked(Fresh(size, nullDev).slots[k])
  {
    ZeroUnlocked();
  }

  // ---------- the high-water mark ----------

  /** The descriptor an open takes, if only for a moment; -1 if it takes none. */
  ghost function Taken(t: Table, c: Call): (fd: int)
    ensures fd >= 0 <==> c.Open? && c.dev != 0 && !Full(t)
    ensures fd >= 0 ==> fd < |t.slots| && t.slots[fd].dev == 0 && forall i :: 0 <= i < fd ==> t.slots[i].dev != 0
  {
    if c.Open? && c.dev != 0 && FirstFree(t.slots) < |t.slots| then FirstFree(t.slots) else -1
  }

  ghost function HighestTaken(t: Table, cs: seq<Call>): int
    requires Inv(t) && LegalRun(t, cs)
    decreases |cs|
  {
    if cs == [] then -1
    else NextKeepsInv(t, cs[0]); Max(Taken(t, cs[0]), HighestTaken(Next(t, cs[0]), cs[1..]))
  }

  /** The mark is the highest descriptor ever taken, by opens that failed afterwards too. */
  lemma {:induction false} HighWaterIs(t: Table, cs: seq<Call>)
    requires Inv(t) && LegalRun(t, cs)
    ensures After(t, cs).maxFd == Max(t.maxFd, HighestTaken(t, cs))
    decreases |cs|
  {
    if cs != [] {
      NextKeepsInv(t, cs[0]);
      assert Next(t, cs[0]).maxFd == Max(t.maxFd, Taken(t, cs[0]));
      HighWaterIs(Next(t, cs[0]), cs[1..]);
    }
  }
}
