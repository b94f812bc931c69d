/** Option and Result, used for null pointers, empty optionals and thrown exceptions. */
module Wrappers {
  datatype Option<T> = None | Some(value: T)

  datatype Result<T> = Ok(value: T) | Err(error: string)
}

/** Integer vectors (glm::ivec3) and C++ integer arithmetic on them. */
module Geometry {
  datatype IVec3 = IVec3(x: int, y: int, z: int)

  function Add(a: IVec3, b: IVec3): IVec3 { IVec3(a.x + b.x, a.y + b.y, a.z + b.z) }

  function Sub(a: IVec3, b: IVec3): IVec3 { IVec3(a.x - b.x, a.y - b.y, a.z - b.z) }

  function Scale(a: IVec3, k: int): IVec3 { IVec3(a.x * k, a.y * k, a.z * k) }

  /** C++ `/` on signed integers: the quotient is truncated toward zero. */
  function TDiv(a: int, b: int): (q: int)
    requires b > 0
    ensures a >= 0 ==> 0 <= a - q * b < b
    ensures a < 0 ==> -b < a - q * b <= 0
  {
    if a >= 0 then a / b else -((-a) / b)
  }

  function TDivVec(a: IVec3, b: int): IVec3
    requires b > 0
  {
    IVec3(TDiv(a.x, b), TDiv(a.y, b), TDiv(a.z, b))
  }

  /** `v & 1` on a two's-complement int: the low bit, 0 or 1 also for negative values. */
  function LowBit(v: int): (b: nat)
    ensures b < 2 && (v - b) % 2 == 0
  {
    v % 2
  }

  /** 32-bit signed range of glm::ivec3 components. */
  predicate IsInt32(c: int) { -0x8000_0000 <= c < 0x8000_0000 }
}

/** Unsigned 32-bit words as bounded integers, with the masks the engine applies to them. */
module Words {
  const WORD_LIMIT: int := 0x1_0000_0000

  type Word = w: int | 0 <= w < 0x1_0000_0000

  /** `w & 0xFF`. */
  function LowByte(w: Word): (r: Word)
    ensures r < 256
  {
    w % 256
  }

  /** `w & 0xFFFFFF00`. */
  function HighBytes(w: Word): (r: Word)
    ensures r % 256 == 0 && r <= w < r + 256
  {
    (w / 256) * 256
  }

  /** A multiple of 256 or-ed with a byte: the sum is a word, and the two masks take it apart again. */
  lemma ByteSplit(h: Word, l: Word)
    requires h % 256 == 0 && l < 256
    ensures h + l < WORD_LIMIT
    ensures (h + l) % 256 == l && ((h + l) / 256) * 256 == h
  {
    var q := h / 256;
    assert h == 256 * q;
    assert q < 0x100_0000;
    assert h + l == 256 * q + l;
  }
}
