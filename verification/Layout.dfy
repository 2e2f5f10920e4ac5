// Constants and small value types shared by the whole model
// (include/mm_address.h, include/sched.h, include/errno.h).
module Layout {

  const NR_TASKS := 10
  const NR_SEMS := 20

  // Ring numbers: the free queue, the ready queue, then one wait queue per semaphore.
  const FREE := 0
  const READY := 1
  const NR_QUEUES := 22

  function SemQueue(n: nat): (r: nat)
    requires n < NR_SEMS
  {
    n + 2
  }

  const TOTAL_PAGES := 1024
  const NUM_PAG_KERNEL := 256
  const PAG_LOG_INIT_CODE := 256
  const NUM_PAG_CODE := 8
  const PAG_LOG_INIT_DATA := 264
  const NUM_PAG_DATA := 20
  const PAG_LOG_INIT_HEAP := 284
  const PAGE_SIZE := 4096
  const HEAP_BASE := 0x11C000 // PAG_LOG_INIT_HEAP << 12
  const L_USER_START := 0x100000

  const EPERM := 1
  const EAGAIN := 11
  const ENOMEM := 12
  const EBUSY := 16
  const EINVAL := 22

  const TWO_31 := 0x8000_0000
  const TWO_32 := 0x1_0000_0000

  // Indices of task[] and of dir_pages[].
  type TaskId = n: nat | n < NR_TASKS

  // The value kept when an integer is stored in a 32-bit unsigned (signed) variable.
  function UInt32(x: int): (r: nat)
    ensures r < TWO_32
    ensures 0 <= x < TWO_32 ==> r == x
  {
    x % TWO_32
  }

  function Int32(x: int): (r: int)
    ensures -TWO_31 <= r < TWO_31
    ensures -TWO_31 <= x < TWO_31 ==> r == x
  {
    var u := x % TWO_32;
    if u < TWO_31 then u else u - TWO_32
  }

  function Min(a: int, b: int): int { if a <= b then a else b }

  function Max(a: int, b: int): int { if a >= b then a else b }

  datatype Option<+T> = None | Some(value: T)
}
