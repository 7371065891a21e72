/** Types shared by every component of the model. */
module Common {

  /** `__u8`, `__u16` and `__u32`. */
  type byte = b: int | 0 <= b < 0x100
  type word = w: int | 0 <= w < 0x1_0000
  type dword = d: int | 0 <= d < 0x1_0000_0000

  /** A pointer that may be NULL. */
  datatype Option<+T> = None | Some(value: T)

  function One(b: bool): nat { if b then 1 else 0 }

  function BigEndian16(b1: byte, b0: byte): word {
    (b1 as int) * 0x100 + b0
  }

  function BigEndian32(b3: byte, b2: byte, b1: byte, b0: byte): dword {
    (b3 as int) * 0x100_0000 + (b2 as int) * 0x1_0000 + (b1 as int) * 0x100 + b0
  }
}
