module Common {
  datatype Option<+T> = None | Some(value: T)

  type byte = x: int | 0 <= x < 256

  /** 1 for true, 0 for false, to count with. */
  function Indicator(b: bool): nat { if b then 1 else 0 }

  /** A cleared buffer. */
  function Zeros(n: nat): (z: seq<byte>)
    ensures |z| == n
  {
    seq(n, _ => 0)
  }
}
