/** Bytes and the big-endian words protocols build from them. */
module Bytes {
  type Byte = x: int | 0 <= x < 256

  type Word = x: int | 0 <= x < 0x1_0000

  type DWord = x: int | 0 <= x < 0x1_0000_0000

  function Hi(w: Word): Byte { w / 256 }

  function Lo(w: Word): Byte { w % 256 }

  function Upper(d: DWord): Word { d / 0x1_0000 }

  function Lower(d: DWord): Word { d % 0x1_0000 }

  /** `struct.unpack("!H", data[i : i + 2])`. */
  function WordAt(data: seq<Byte>, i: nat): Word
    requires i + 2 <= |data|
  {
    var hi: int := data[i];
    hi * 256 + data[i + 1]
  }

  function DWordAt(data: seq<Byte>, i: nat): DWord
    requires i + 4 <= |data|
  {
    WordAt(data, i) * 0x1_0000 + WordAt(data, i + 2)
  }

  /** Python's `data[:n]`, which stops at the end of the data. */
  function Take<T>(data: seq<T>, n: nat): seq<T> { if |data| <= n then data else data[..n] }

  /** Python's `data[n:]`. */
  function Drop<T>(data: seq<T>, n: nat): seq<T> { if |data| <= n then [] else data[n..] }
}
