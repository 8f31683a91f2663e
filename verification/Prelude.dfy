/** Types every module may need. */
module Prelude {
  datatype Option<T> = None | Some(value: T)

  /** Who may touch a descriptor. */
  datatype Owner = Cpu | Dma

  type Byte = b: int | 0 <= b < 256
}
