/** The arithmetic of sbrk: process sizes in bytes, and what a signed argument does to them. */
module Sbrk {
  /** PGROUNDUP(bytes) / PGSIZE */
  function Pages(bytes: nat): nat { (bytes + 4095) / 4096 }

  /** By how much sbrk(n) moves the break of a process of sz bytes. growproc adds n in 64 bits; a sum that falls below
      zero comes out above sz, and uvmdealloc then leaves the size alone. */
  function Moved(sz: nat, n: int): int { if sz + n < 0 then 0 else n }

  lemma PagesMonotone(a: nat, b: nat)
    requires a <= b
    ensures Pages(a) <= Pages(b)
  {
  }

  lemma PagesAtMost(a: nat, k: nat)
    ensures Pages(a) <= k <==> a <= k * 4096
  {
  }
}
