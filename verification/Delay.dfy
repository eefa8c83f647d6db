/** The idle loops of delay_for_n_mem_clocks, at the full rate. */
module Delay {
  import opened CInt

  /** Executions of the nested idle loops: each runs once more than its counter says. */
  function Idle(inner: nat, outer: nat): nat {
    (inner + 1) * (outer + 1)
  }

  /** What an 8-bit counter keeps. */
  function Byte(x: nat): nat {
    x % 0x100
  }

  function Half16(x: nat): nat {
    x % 0x1_0000
  }

  /** The mask that lets the delay loops be skipped: all of a counter's 8 bits, or none of them. */
  function Masked(x: nat, skip: bool): nat {
    if skip then 0 else x
  }

  /** The wait.  When delay loops are not skipped it is never short, and long by less than the inner loop, or
      by less than both loops when the third counter is needed; no counter loses bits.  When they are, it
      is one turn, or as many as the third counter asks for, and so long enough exactly for that many. */
  method DelayForClocks(afiClocks: Word, skip: bool) returns (idle: nat)
    ensures !skip ==> idle >= afiClocks
    ensures !skip && 0 < afiClocks <= 0x100 ==> idle == afiClocks
    ensures !skip && 0x100 < afiClocks <= 0x1_0000 ==> idle < afiClocks + 0x100
    ensures !skip && afiClocks > 0x1_0000 ==> idle < afiClocks + 0x1_0000
    ensures afiClocks == 0 ==> idle == 1
    ensures skip ==> idle == if afiClocks <= 0x1_0000 then 1 else (afiClocks - 1) / 0x1_0000 + 1
    ensures idle >= afiClocks <==> !skip || afiClocks <= 1
  {
    var inner, outer, cLoop := 0, 0, 0;
    if afiClocks == 0 {
    } else if afiClocks <= 0x100 {
      inner := Byte(afiClocks - 1);
    } else if afiClocks <= 0x1_0000 {
      inner, outer := 0xff, Byte((afiClocks - 1) / 0x100);
    } else {
      inner, outer, cLoop := 0xff, 0xff, Half16((afiClocks - 1) / 0x1_0000);
    }
    inner, outer := Masked(inner, skip), Masked(outer, skip);
    idle := Idle(inner, outer);
    if afiClocks > 0x1_0000 {
      ghost var runs := cLoop;
      while cLoop != 0
        invariant cLoop <= runs && idle == (runs - cLoop + 1) * if skip then 1 else 0x1_0000
        decreases cLoop
      {
        cLoop := cLoop - 1;
        idle := idle + Idle(inner, outer);
      }
    }
  }
}
