/** The descriptor table in memory: each call updates it in place just as module Files says. */
module FileTable {
  import opened Files

  class Descriptors {
    const slots: array<Slot>
    /** alt_max_fd, the highest descriptor ever allocated. */
    var maxFd: int

    constructor (size: nat, nullDev: nat)
      requires 3 <= size && nullDev > 0
      ensures Valid() && View() == Initial(size, nullDev) && fresh(slots)
    {
      slots := new Slot[size](i => if i < 3 then Slot(nullDev, 0) else Slot(0, 0));
      maxFd := -1;
      new;
      InitialIsGood(size, nullDev);
      assert slots[..] == Initial(size, nullDev).slots;
    }

    ghost function View(): Table
      reads this, slots
    {
      Table(slots[..], maxFd)
    }

    ghost predicate Valid()
      reads this, slots
    {
      Inv(View())
    }

    /** alt_get_fd: take the first free descriptor; -1 when there is none. */
    method GetFd(dev: nat) returns (fd: int)
      requires Valid() && dev != 0
      modifies this`maxFd, slots
      ensures fd == -1 ==> FirstFree(old(slots[..])) == slots.Length && View() == old(View())
      ensures fd != -1 ==>
                && fd == FirstFree(old(slots[..])) < slots.Length
                && View() == Allocated(old(View()), fd, dev, old(slots[fd].flags))
    {
      for i := 0 to slots.Length
        invariant View() == old(View())
        invariant i + FirstFree(slots[i..]) == FirstFree(slots[..])
      {
        assert slots[i..][1..] == slots[i + 1..];
        if slots[i].dev == 0 {
          slots[i] := slots[i].(dev := dev);
          if i > maxFd {
            maxFd := i;
          }
          return i;
        }
      }
      return -1;
    }

    /** alt_release_fd */
    method ReleaseFd(fd: int)
      requires fd < slots.Length
      modifies slots
      ensures View() == Released(old(View()), fd)
    {
      if fd > 2 {
        slots[fd] := Slot(0, 0);
      }
    }

    /** alt_file_locked: mark the descriptor as a device's, and look for a lock on the device. */
    method FileLocked(fd: nat) returns (held: bool)
      requires fd <= maxFd < slots.Length
      modifies slots
      ensures View() == WithFlags(old(View()), fd, Marked(old(slots[fd].flags)))
      ensures held <==> HeldByOther(View(), fd)
    {
      SetFlags(fd, Marked(slots[fd].flags));
      for i := 0 to maxFd + 1
        invariant forall j :: 0 <= j < i ==>
                    !(j != fd && slots[j].dev == slots[fd].dev && Locked(slots[j]))
      {
        if slots[i].dev == slots[fd].dev && Locked(slots[i]) && i != fd {
          return true;
        }
      }
      return false;
    }

    /** The middle of ALT_OPEN: set the flags of the allocated descriptor, see that a device is not locked,
        and call its own open function. */
    method Claim(fd: nat, isFs: bool, flags: Flags, hook: int) returns (status: Status)
      requires fd <= maxFd < slots.Length
      modifies slots
      ensures View() == WithFlags(old(View()), fd, OpenFlags(isFs, flags))
      ensures status == if !isFs && HeldByOther(View(), fd) then Denied
                        else if hook < 0 then HookFailed else Ok(fd)
    {
      SetFlags(fd, Plain(flags));
      var held := false;
      if !isFs {
        held := FileLocked(fd);
      }
      status := if held then Denied else if hook < 0 then HookFailed else Ok(fd);
    }

    /** ALT_OPEN; dev is what the name was found to be, 0 for nothing, and hook what the device's own open
        function returns (0 when it has none). */
    method Open(dev: nat, isFs: bool, flags: Flags, hook: int) returns (status: Status)
      requires Valid()
      modifies this, slots
      ensures Valid()
      ensures (View(), status) == Opened(old(View()), dev, isFs, flags, hook)
    {
      OpenKeepsInv(View(), dev, isFs, flags, hook);
      if dev == 0 {
        ReleaseFd(-1);
        return NoDevice;
      }
      var fd := GetFd(dev);
      if fd < 0 {
        ReleaseFd(fd);
        return TooMany;
      }
      status := Claim(fd, isFs, flags, hook);
      AllocatedAgain(old(View()), fd, dev, old(slots[fd].flags), slots[fd].flags);
      if !status.Ok? {
        ReleaseFd(fd);
      }
    }

    lemma AllocatedAgain(t: Table, fd: nat, dev: nat, flags: Flags, flags': Flags)
      requires fd < |t.slots|
      ensures WithFlags(Allocated(t, fd, dev, flags), fd, flags') == Allocated(t, fd, dev, flags')
    {
    }

    /** ALT_CLOSE; hook is what the device's own close function returns (0 when it has none). */
    method Close(fd: int, hook: int) returns (status: Status)
      requires Valid() && Legal(View(), Call.Close(fd, hook))
      modifies slots
      ensures Valid() && View() == Next(old(View()), Call.Close(fd, hook))
      ensures status == if fd < 0 then BadFd else if hook < 0 then HookFailed else Ok(0)
    {
      NextKeepsInv(View(), Call.Close(fd, hook));
      if fd < 0 {
        return BadFd;
      }
      ReleaseFd(fd);
      return if hook < 0 then HookFailed else Ok(0);
    }

    /** ALT_FCNTL with F_SETFL. */
    method SetFl(fd: int, arg: Flags) returns (status: Status)
      requires Valid() && Legal(View(), Call.SetFl(fd, arg))
      modifies slots
      ensures Valid() && View() == Next(old(View()), Call.SetFl(fd, arg))
      ensures status == if fd < 0 then BadFd else Ok(0)
    {
      NextKeepsInv(View(), Call.SetFl(fd, arg));
      if fd < 0 {
        return BadFd;
      }
      SetFlags(fd, Merged(slots[fd].flags, arg));
      return Ok(0);
    }

    method SetFlags(fd: nat, flags: Flags)
      requires fd < slots.Length
      modifies slots
      ensures View() == WithFlags(old(View()), fd, flags)
    {
      slots[fd] := slots[fd].(flags := flags);
    }

    /** The scan of alt_fd_lock, which stops before the high-water mark. */
    method OtherUser(fd: nat) returns (found: bool)
      requires fd < slots.Length && maxFd <= slots.Length
      ensures found <==> LockRefused(View(), fd)
    {
      var i := 0;
      while i < maxFd
        invariant 0 <= i && forall j :: 0 <= j < i && j < maxFd && j != fd ==> slots[j].dev != slots[fd].dev
      {
        if i != fd && slots[i].dev == slots[fd].dev {
          return true;
        }
        i := i + 1;
      }
      return false;
    }

    /** alt_fd_lock */
    method Lock(fd: nat) returns (status: Status)
      requires Valid() && Legal(View(), Call.Lock(fd))
      modifies slots
      ensures Valid() && View() == Next(old(View()), Call.Lock(fd))
      ensures status == if LockRefused(old(View()), fd) then Denied else Ok(0)
    {
      NextKeepsInv(View(), Call.Lock(fd));
      var found := OtherUser(fd);
      if found {
        return Denied;
      }
      SetFlags(fd, slots[fd].flags | EXCL);
      return Ok(0);
    }

    /** alt_fd_unlock */
    method Unlock(fd: nat) returns (status: Status)
      requires Valid() && Legal(View(), Call.Unlock(fd))
      modifies slots
      ensures Valid() && View() == Next(old(View()), Call.Unlock(fd))
      ensures status == Ok(0)
    {
      NextKeepsInv(View(), Call.Unlock(fd));
      SetFlags(fd, slots[fd].flags & !EXCL);
      return Ok(0);
    }
  }
}
