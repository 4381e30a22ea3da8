// Constants of types.h and the small datatypes that every component shares.
module Types {
  datatype Option<+T> = None | Some(value: T)

  // An 8-bit cell. Comparisons with character constants use the character code.
  type Byte = b: int | 0 <= b < 256

  const NUL: Byte := 0
  const BACKSPACE: Byte := 8
  const TAB: Byte := 9
  const NEWLINE: Byte := 10
  const SPACE: Byte := 32

  const U32: int := 0x1_0000_0000

  const MAX_PCB_NUM := 6
  const TOTAL_TERMINALS := 3
  const TASK_NUMBER := 10
  const PCB_FILE_NUMBER := 8
  const FD_START := 2

  const FOUR_KB := 0x1000
  const FOUR_MB := 0x40_0000
  const EIGHT_MB := 0x80_0000
  const VIDEO := 0xB8000
  const USER_VIDEO_ADDR := 0x840_0000
  const KERNEL_BOTTOM := 0x7f_ffff
  const STACK_SIZE := 0x2000

  // The kernel stack pointer of the process in slot n.
  function Esp0(n: int): int { KERNEL_BOTTOM - STACK_SIZE * (n - 1) }

  // Frame number of the physical video page; the three backing pages follow it.
  const VIDEO_FRAME := VIDEO / FOUR_KB
}
