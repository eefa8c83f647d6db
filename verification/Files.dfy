/** The file-descriptor table (alt_open.c, alt_close.c, alt_get_fd.c, alt_release_fd.c, alt_fcntl.c,
    alt_fd_lock.c, alt_fd_unlock.c) as values: what each call does, and what every run of calls keeps. */
module Files {

  type Flags = bv32

  /** Bits of a descriptor's flags: locked for exclusive access, and device rather than filesystem. */
  const EXCL: Flags := 0x8000_0000
  const DEV: Flags := 0x4000_0000
  const FLAGS_MASK: Flags := 0xC000_0000
  /** O_APPEND and O_NONBLOCK, the flags that F_SETFL may change. */
  const SETTABLE: Flags := 0x0000_4008

  /** A descriptor; dev 0 marks a free one. */
  datatype Slot = Slot(dev: nat, flags: Flags)

  datatype Table = Table(slots: seq<Slot>, maxFd: int)

  datatype Status = Ok(fd: nat) | NoDevice | TooMany | Denied | HookFailed | BadFd

  /** Descriptors 0..2 are never free; a free one is neither locked nor marked a device; and none past
      the high-water mark, which is -1 or past the reserved ones, is in use. */
  ghost predicate Inv(t: Table) {
    && 3 <= |t.slots| && -1 <= t.maxFd < |t.slots| && (t.maxFd >= 0 ==> t.maxFd >= 3)
    && (forall i :: 0 <= i < 3 ==> t.slots[i].dev != 0)
    && (forall i :: 0 <= i < |t.slots| && t.slots[i].dev == 0 ==> t.slots[i].flags & FLAGS_MASK == 0)
    && (forall i :: 3 <= i < |t.slots| && t.slots[i].dev != 0 ==> i <= t.maxFd)
  }

  predicate Locked(s: Slot) {
    s.flags & EXCL != 0
  }

  /** The caller's flags without the lock and device bits. */
  function Plain(flags: Flags): Flags {
    flags & !FLAGS_MASK
  }

  function Marked(flags: Flags): Flags {
    flags | DEV
  }

  function OpenFlags(isFs: bool, flags: Flags): Flags {
    if isFs then Plain(flags) else Marked(Plain(flags))
  }

  /** alt_dev.c: standard input, output and error on the null device, the rest free. */
  function Initial(size: nat, nullDev: nat): Table
    requires 3 <= size && nullDev > 0
  {
    Table(seq(size, i => if i < 3 then Slot(nullDev, 0) else Slot(0, 0)), -1)
  }

  /** The lowest free descriptor, or the size of the table. */
  function FirstFree(slots: seq<Slot>): (i: nat)
    ensures i <= |slots|
    ensures forall j :: 0 <= j < i ==> slots[j].dev != 0
    ensures i < |slots| ==> slots[i].dev == 0
  {
    if slots == [] || slots[0].dev == 0 then 0 else 1 + FirstFree(slots[1..])
  }

  /** alt_release_fd */
  function Released(t: Table, fd: int): Table
    requires fd < |t.slots|
  {
    if fd > 2 then t.(slots := t.slots[fd := Slot(0, 0)]) else t
  }

  /** Another descriptor of the device, up to the high-water mark, is locked. */
  ghost predicate HeldByOther(t: Table, fd: nat)
    requires fd < |t.slots| && t.maxFd < |t.slots|
  {
    exists i :: 0 <= i <= t.maxFd && i != fd && t.slots[i].dev == t.slots[fd].dev && Locked(t.slots[i])
  }

  /** A descriptor just allocated to a device, its flags set from the caller's. */
  function Allocated(t: Table, fd: nat, dev: nat, flags: Flags): Table
    requires fd < |t.slots|
  {
    Table(t.slots[fd := Slot(dev, flags)], if fd > t.maxFd then fd else t.maxFd)
  }

  /** ALT_OPEN of a device or filesystem (0 when the name matches neither); hook is what the device's
      open function returns. */
  ghost function Opened(t: Table, dev: nat, isFs: bool, flags: Flags, hook: int): (r: (Table, Status))
  {
    var fd := FirstFree(t.slots);
    if dev == 0 then (t, NoDevice)
    else if fd == |t.slots| then (t, TooMany)
    else
      var u := Allocated(t, fd, dev, OpenFlags(isFs, flags));
      if !isFs && u.maxFd < |u.slots| && HeldByOther(u, fd) then (Released(u, fd), Denied)
      else if hook < 0 then (Released(u, fd), HookFailed)
      else (u, Ok(fd))
  }

  /** alt_fd_lock looks at the descriptors below the high-water mark only. */
  ghost predicate LockRefused(t: Table, fd: nat)
    requires fd < |t.slots| && t.maxFd <= |t.slots|
  {
    exists i :: 0 <= i < t.maxFd && i != fd && t.slots[i].dev == t.slots[fd].dev
  }

  function WithFlags(t: Table, fd: nat, flags: Flags): Table
    requires fd < |t.slots|
  {
    t.(slots := t.slots[fd := t.slots[fd].(flags := flags)])
  }

  /** What F_SETFL makes of a descriptor's flags. */
  function Merged(was: Flags, arg: Flags): Flags {
    (was & !SETTABLE) | (arg & SETTABLE)
  }

  // ---------- runs ----------

  /** The calls, with what the device's own open and close functions return. */
  datatype Call =
    | Open(dev: nat, isFs: bool, flags: Flags, openHook: int)
    | Close(fd: int, closeHook: int)
    | SetFl(fd: int, arg: Flags)
    | Lock(fd: int)
    | Unlock(fd: int)

  /** The calls that the code can take: descriptors within the table, closed or locked only while open. */
  predicate Legal(t: Table, c: Call) {
    match c
    case Open(_, _, _, _) => true
    case Close(fd, _) => fd < |t.slots| && (fd >= 0 ==> t.slots[fd].dev != 0)
    case SetFl(fd, _) => fd < |t.slots|
    case Lock(fd) => 0 <= fd < |t.slots| && t.slots[fd].dev != 0
    case Unlock(fd) => 0 <= fd < |t.slots| && t.slots[fd].dev != 0
  }

  ghost function Next(t: Table, c: Call): Table
    requires Inv(t) && Legal(t, c)
  {
    match c
    case Open(dev, isFs, flags, hook) => Opened(t, dev, isFs, flags, hook).0
    case Close(fd, _) => Released(t, fd)
    case SetFl(fd, arg) => if fd < 0 then t else WithFlags(t, fd, Merged(t.slots[fd].flags, arg))
    case Lock(fd) => if LockRefused(t, fd) then t else WithFlags(t, fd, t.slots[fd].flags | EXCL)
    case Unlock(fd) => WithFlags(t, fd, t.slots[fd].flags & !EXCL)
  }

  lemma InitialIsGood(size: nat, nullDev: nat)
    requires 3 <= size && nullDev > 0
    ensures Inv(Initial(size, nullDev))
  {
  }

  // ---------- what every call keeps ----------

  lemma MergedKeepsLockBits(was: Flags, arg: Flags)
    ensures Merged(was, arg) & FLAGS_MASK == was & FLAGS_MASK
    ensures Merged(was, arg) & EXCL == was & EXCL
  {
  }

  lemma MaskBits(f: Flags)
    ensures f & FLAGS_MASK == 0 ==> f & EXCL == 0
    ensures (f & !FLAGS_MASK) & EXCL == 0 && ((f & !FLAGS_MASK) | DEV) & EXCL == 0
    ensures (f | EXCL) & EXCL != 0 && (f & !EXCL) & EXCL == 0
    ensures f & FLAGS_MASK == 0 ==> (f & !EXCL) & FLAGS_MASK == 0
  {
  }

  lemma AllocatedKeepsInv(t: Table, fd: nat, dev: nat, flags: Flags)
    requires Inv(t) && 3 <= fd < |t.slots| && dev != 0
    ensures Inv(Allocated(t, fd, dev, flags))
  {
  }

  lemma ReleasedKeepsInv(t: Table, fd: int)
    requires Inv(t) && fd < |t.slots|
    ensures Inv(Released(t, fd))
  {
  }

  lemma OpenKeepsInv(t: Table, dev: nat, isFs: bool, flags: Flags, hook: int)
    requires Inv(t)
    ensures Inv(Opened(t, dev, isFs, flags, hook).0)
  {
    var fd := FirstFree(t.slots);
    if dev != 0 && fd < |t.slots| {
      AllocatedKeepsInv(t, fd, dev, OpenFlags(isFs, flags));
      ReleasedKeepsInv(Allocated(t, fd, dev, OpenFlags(isFs, flags)), fd);
    }
  }

  lemma WithFlagsKeepsInv(t: Table, fd: nat, flags: Flags)
    requires Inv(t) && fd < |t.slots| && (t.slots[fd].dev == 0 ==> flags & FLAGS_MASK == 0)
    ensures Inv(WithFlags(t, fd, flags))
  {
  }

  lemma SetFlKeepsInv(t: Table, fd: nat, arg: Flags)
    requires Inv(t) && fd < |t.slots|
    ensures Inv(WithFlags(t, fd, Merged(t.slots[fd].flags, arg)))
  {
    MergedKeepsLockBits(t.slots[fd].flags, arg);
    WithFlagsKeepsInv(t, fd, Merged(t.slots[fd].flags, arg));
  }

  lemma OpenSlotKeepsInv(t: Table, fd: nat, flags: Flags)
    requires Inv(t) && fd < |t.slots| && t.slots[fd].dev != 0
    ensures Inv(WithFlags(t, fd, flags))
  {
    WithFlagsKeepsInv(t, fd, flags);
  }

  lemma NextKeepsInv(t: Table, c: Call)
    requires Inv(t) && Legal(t, c)
    ensures Inv(Next(t, c))
  {
    match c
    case Open(dev, isFs, flags, hook) => OpenKeepsInv(t, dev, isFs, flags, hook);
    case Close(fd, _) => ReleasedKeepsInv(t, fd);
    case SetFl(fd, arg) => if fd >= 0 { SetFlKeepsInv(t, fd, arg); }
    case Lock(fd) => OpenSlotKeepsInv(t, fd, t.slots[fd].flags | EXCL);
    case Unlock(fd) => OpenSlotKeepsInv(t, fd, t.slots[fd].flags & !EXCL);
  }

  /** A failing open gives back what it took: every open descriptor is as it was and every free one still
      free; the slots are unchanged exactly when the one it took, if it took one, had no flags set.  Only
      the high-water mark may have moved. */
  lemma FailedOpenLeaksNothing(t: Table, dev: nat, isFs: bool, flags: Flags, hook: int)
    requires Inv(t) && !Opened(t, dev, isFs, flags, hook).1.Ok?
    ensures var u, fd := Opened(t, dev, isFs, flags, hook).0, FirstFree(t.slots);
            && |u.slots| == |t.slots|
            && (forall i :: 0 <= i < |t.slots| && t.slots[i].dev != 0 ==> u.slots[i] == t.slots[i])
            && (forall i :: 0 <= i < |t.slots| && t.slots[i].dev == 0 ==> u.slots[i].dev == 0)
            && (u.slots == t.slots <==> dev == 0 || fd == |t.slots| || t.slots[fd].flags == 0)
  {
    var fd := FirstFree(t.slots);
    if dev != 0 && fd < |t.slots| {
      var u := Opened(t, dev, isFs, flags, hook).0;
      assert u.slots == t.slots[fd := Slot(0, 0)];
      assert u.slots[fd] == Slot(0, 0) && t.slots[fd].dev == 0;
    }
  }

  /** A successful open takes the lowest free descriptor, which is not a reserved one, leaves it unlocked,
      and touches no other. */
  lemma OpenTakesLowestFree(t: Table, dev: nat, isFs: bool, flags: Flags, hook: int)
    requires Inv(t) && Opened(t, dev, isFs, flags, hook).1.Ok?
    ensures var (u, status) := Opened(t, dev, isFs, flags, hook);
            && 3 <= status.fd < |t.slots| && t.slots[status.fd].dev == 0
            && (forall i :: 0 <= i < status.fd ==> t.slots[i].dev != 0)
            && u.slots == t.slots[status.fd := Slot(dev, OpenFlags(isFs, flags))]
            && !Locked(u.slots[status.fd])
  {
    MaskBits(flags);
  }

  // ---------- the lock ----------

  /** The call gives up descriptor k's lock.  Closing a reserved descriptor does not. */
  predicate GivesUp(c: Call, k: nat) {
    c == Unlock(k) || (c.Close? && c.fd == k && k > 2)
  }

  ghost predicate LegalRun(t: Table, cs: seq<Call>)
    requires Inv(t)
    decreases |cs|
  {
    cs == [] || (Legal(t, cs[0]) && (NextKeepsInv(t, cs[0]); LegalRun(Next(t, cs[0]), cs[1..])))
  }

  ghost function After(t: Table, cs: seq<Call>): Table
    requires Inv(t) && LegalRun(t, cs)
    decreases |cs|
  {
    if cs == [] then t else NextKeepsInv(t, cs[0]); After(Next(t, cs[0]), cs[1..])
  }

  /** No open of the device in the run returns a descriptor. */
  ghost predicate AllRefused(t: Table, cs: seq<Call>, dev: nat)
    requires Inv(t) && LegalRun(t, cs)
    decreases |cs|
  {
    cs == [] ||
    (&& (cs[0].Open? && cs[0].dev == dev && !cs[0].isFs ==>
           !Opened(t, dev, false, cs[0].flags, cs[0].openHook).1.Ok?)
     && (NextKeepsInv(t, cs[0]); AllRefused(Next(t, cs[0]), cs[1..], dev)))
  }

  ghost predicate Holds(t: Table, k: nat, dev: nat) {
    k < |t.slots| && dev != 0 && t.slots[k].dev == dev && Locked(t.slots[k])
  }

  lemma OpenRefused(t: Table, k: nat, dev: nat, flags: Flags, hook: int)
    requires Inv(t) && Holds(t, k, dev)
    ensures !Opened(t, dev, false, flags, hook).1.Ok?
  {
    var fd := FirstFree(t.slots);
    if fd < |t.slots| {
      var u := Allocated(t, fd, dev, OpenFlags(false, flags));
      assert u.slots[k] == t.slots[k] && k != fd && k <= u.maxFd;
      assert HeldByOther(u, fd);
    }
  }

  lemma NextKeepsLock(t: Table, c: Call, k: nat, dev: nat)
    requires Inv(t) && Legal(t, c) && Holds(t, k, dev) && !GivesUp(c, k)
    ensures Holds(Next(t, c), k, dev)
  {
    match c
    case Open(_, _, _, _) =>
    case Close(_, _) =>
    case SetFl(fd, arg) => if fd >= 0 { MergedKeepsLockBits(t.slots[fd].flags, arg); }
    case Lock(_) =>
    case Unlock(_) =>
  }

  /** From the moment a descriptor is locked until that descriptor is unlocked or closed, whatever calls
      come between, it stays locked and every open of its device fails. */
  lemma {:induction false} LockHolds(t: Table, cs: seq<Call>, k: nat, dev: nat)
    requires Inv(t) && LegalRun(t, cs) && Holds(t, k, dev)
    requires forall i :: 0 <= i < |cs| ==> !GivesUp(cs[i], k)
    ensures AllRefused(t, cs, dev) && Holds(After(t, cs), k, dev)
    decreases |cs|
  {
    if cs != [] {
      if cs[0].Open? && cs[0].dev == dev {
        OpenRefused(t, k, dev, cs[0].flags, cs[0].openHook);
      }
      NextKeepsLock(t, cs[0], k, dev);
      NextKeepsInv(t, cs[0]);
      LockHolds(Next(t, cs[0]), cs[1..], k, dev);
    }
  }

  // ---------- what the lock does not give ----------

  /** Descriptor k is the only one open on its device. */
  ghost predicate OnlyUser(t: Table, k: nat)
    requires k < |t.slots|
  {
    forall i :: 0 <= i < |t.slots| && i != k ==> t.slots[i].dev != t.slots[k].dev
  }

  /** A granted lock means that no other descriptor is open on the device exactly when the one at the
      high-water mark is not, the lock's own scan having stopped just before it; before the first open,
      when the mark is -1, nothing is scanned at all. */
  lemma GrantIsExclusiveIff(t: Table, k: nat)
    requires Inv(t) && Legal(t, Lock(k)) && !LockRefused(t, k)
    ensures OnlyUser(t, k) <==>
            if t.maxFd >= 0 then t.maxFd == k || t.slots[t.maxFd].dev != t.slots[k].dev
            else forall i :: 0 <= i < 3 && i != k ==> t.slots[i].dev != t.slots[k].dev
  {
  }

  /** Two descriptors open on device 7, the later one at the high-water mark: the first is granted the
      lock all the same. */
  lemma GrantNotExclusive()
    ensures var t := Table([Slot(1, 0), Slot(1, 0), Slot(1, 0), Slot(7, DEV), Slot(7, DEV)], 4);
            Inv(t) && !LockRefused(t, 3) && !OnlyUser(t, 3)
  {
    var t := Table([Slot(1, 0), Slot(1, 0), Slot(1, 0), Slot(7, DEV), Slot(7, DEV)], 4);
    assert t.slots[4].dev == t.slots[3].dev;
  }

  /** Closing a locked descriptor releases its lock exactly when it is not one of the reserved ones, whose
      closing changes nothing. */
  lemma CloseReleasesLockIff(t: Table, k: nat, hook: int)
    requires Inv(t) && Legal(t, Close(k, hook)) && Locked(t.slots[k])
    ensures !Locked(Next(t, Close(k, hook)).slots[k]) <==> k > 2
    ensures k <= 2 ==> Next(t, Close(k, hook)) == t
  {
    assert (0 as Flags) & EXCL == 0;
  }

  /** A fresh table after standard input has been locked and closed. */
  ghost function LockedAndClosed(size: nat, nullDev: nat, hook: int): (t: Table)
    requires 3 <= size && nullDev > 0
    ensures Inv(t) && Holds(t, 0, nullDev)
  {
    var t := Initial(size, nullDev);
    InitialIsGood(size, nullDev);
    NextKeepsInv(t, Lock(0));
    NextKeepsInv(Next(t, Lock(0)), Close(0, hook));
    MaskBits(0);
    Next(Next(t, Lock(0)), Close(0, hook))
  }

  /** Standard input locked and closed: no open of its device succeeds from then on, until it is unlocked
      through the closed descriptor. */
  lemma ReservedLockStays(size: nat, nullDev: nat, hook: int, cs: seq<Call>)
    requires 3 <= size && nullDev > 0
    requires LegalRun(LockedAndClosed(size, nullDev, hook), cs) && Unlock(0) !in cs
    ensures AllRefused(LockedAndClosed(size, nullDev, hook), cs, nullDev)
  {
    LockHolds(LockedAndClosed(size, nullDev, hook), cs, 0, nullDev);
  }

  /** Setting flags through a closed descriptor is not refused: the free slot keeps zero flags exactly
      when none of the settable ones is asked for. */
  lemma SetFlOnFreeIff(t: Table, fd: nat, arg: Flags)
    requires Inv(t) && fd < |t.slots| && t.slots[fd] == Slot(0, 0)
    ensures Next(t, SetFl(fd, arg)).slots[fd] == Slot(0, 0) <==> arg & SETTABLE == 0
  {
  }

  // ---------- free descriptors without flags ----------

  /** Every free descriptor has zero flags. */
  ghost predicate Clear(t: Table) {
    forall i :: 0 <= i < |t.slots| && t.slots[i].dev == 0 ==> t.slots[i].flags == 0
  }

  /** The call sets a settable flag through a descriptor that is not open. */
  ghost predicate SetsOnFree(t: Table, c: Call)
    requires Legal(t, c)
  {
    c.SetFl? && 0 <= c.fd && t.slots[c.fd].dev == 0 && c.arg & SETTABLE != 0
  }

  lemma MergedZeroIff(arg: Flags)
    ensures Merged(0, arg) == 0 <==> arg & SETTABLE == 0
  {
  }

  lemma WithFlagsClearIff(t: Table, fd: nat, flags: Flags)
    requires Clear(t) && fd < |t.slots|
    ensures Clear(WithFlags(t, fd, flags)) <==> t.slots[fd].dev != 0 || flags == 0
  {
    var u := WithFlags(t, fd, flags);
    assert u.slots[fd] == t.slots[fd].(flags := flags);
    assert forall i :: 0 <= i < |t.slots| && i != fd ==> u.slots[i] == t.slots[i];
  }

  lemma SetFlClearIff(t: Table, fd: nat, arg: Flags)
    requires Inv(t) && Clear(t) && fd < |t.slots|
    ensures Clear(Next(t, SetFl(fd, arg))) <==> t.slots[fd].dev != 0 || arg & SETTABLE == 0
  {
    WithFlagsClearIff(t, fd, Merged(t.slots[fd].flags, arg));
    MergedZeroIff(arg);
  }

  /** One call keeps the free descriptors without flags exactly when it does not set one on them. */
  lemma NextClearIff(t: Table, c: Call)
    requires Inv(t) && Legal(t, c) && Clear(t)
    ensures Clear(Next(t, c)) <==> !SetsOnFree(t, c)
  {
    match c
    case Open(_, _, _, _) =>
    case Close(_, _) =>
    case SetFl(fd, arg) => if fd >= 0 { SetFlClearIff(t, fd, arg); }
    case Lock(_) =>
    case Unlock(_) =>
  }

  ghost predicate ClearThroughout(t: Table, cs: seq<Call>)
    requires Inv(t) && LegalRun(t, cs)
    decreases |cs|
  {
    Clear(t) && (cs == [] || (NextKeepsInv(t, cs[0]); ClearThroughout(Next(t, cs[0]), cs[1..])))
  }

  ghost predicate NeverSetsOnFree(t: Table, cs: seq<Call>)
    requires Inv(t) && LegalRun(t, cs)
    decreases |cs|
  {
    cs == [] || (!SetsOnFree(t, cs[0]) && (NextKeepsInv(t, cs[0]); NeverSetsOnFree(Next(t, cs[0]), cs[1..])))
  }

  /** Over every run from a table whose free descriptors have zero flags, they keep having zero flags
      exactly when no call sets one through a descriptor that is not open. */
  lemma {:induction false} RunClearIff(t: Table, cs: seq<Call>)
    requires Inv(t) && LegalRun(t, cs) && Clear(t)
    ensures ClearThroughout(t, cs) <==> NeverSetsOnFree(t, cs)
    decreases |cs|
  {
    if cs != [] {
      NextKeepsInv(t, cs[0]);
      NextClearIff(t, cs[0]);
      if Clear(Next(t, cs[0])) {
        RunClearIff(Next(t, cs[0]), cs[1..]);
      }
    }
  }

  lemma InitialIsClear(size: nat, nullDev: nat)
    requires 3 <= size && nullDev > 0
    ensures Clear(Initial(size, nullDev))
  {
  }

  /** A failing open then changes no slot at all. */
  lemma FailedOpenChangesNothing(t: Table, dev: nat, isFs: bool, flags: Flags, hook: int)
    requires Inv(t) && Clear(t) && !Opened(t, dev, isFs, flags, hook).1.Ok?
    ensures Opened(t, dev, isFs, flags, hook).0.slots == t.slots
  {
    FailedOpenLeaksNothing(t, dev, isFs, flags, hook);
  }
}
