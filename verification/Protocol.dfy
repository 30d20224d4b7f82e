/** The command bytes, status bytes and sizes shared by the device and both host tools. */
module Protocol {
  newtype Byte = x: int | 0 <= x < 0x100

  /** A connection: never used twice, unlike descriptor numbers. */
  type Conn = nat

  const DFU_START: Byte := 0x03
  const DFU_DOWNLOAD: Byte := 0x04
  const DFU_END: Byte := 0x05
  const SUCCESS: Byte := 1
  const FAILED: Byte := 0

  /** Bytes the TCP server asks for in one recv. */
  const MTU_SIZE: nat := 255

  /** Firmware bytes per DFU_DOWNLOAD packet: the TCP tool and the USB tool. */
  const TCP_CHUNK: nat := 254
  const USB_CHUNK: nat := 63

  predicate Recognised(req: Byte) {
    DFU_START <= req <= DFU_END
  }

  function Status(ok: bool): Byte {
    if ok then SUCCESS else FAILED
  }

  function Min(a: nat, b: nat): nat {
    if a <= b then a else b
  }

  /** ceil(n / c) */
  function CeilDiv(n: nat, c: nat): nat
    requires c > 0
  {
    (n + c - 1) / c
  }

  /** Moving one chunk of at most `c` bytes lowers the number of chunks left by exactly one. */
  lemma CeilDivStep(n: nat, c: nat)
    requires c > 0 && n > 0
    ensures CeilDiv(n, c) == 1 + CeilDiv(n - Min(n, c), c)
  {
    if n <= c {
      DivUnique(n + c - 1, c, 1, n - 1);
      DivUnique(c - 1, c, 0, c - 1);
    } else {
      DivOnce(n - 1, c);
      assert n - 1 + c == n + c - 1 && n - c + c - 1 == n - 1;
    }
  }

  lemma DivOnce(n: nat, c: nat)
    requires c > 0
    ensures (n + c) / c == n / c + 1
  {
    var q, r := n / c, n % c;
    assert n + c == (q + 1) * c + r;
    DivUnique(n + c, c, q + 1, r);
  }

  lemma DivUnique(n: nat, c: nat, q: nat, r: nat)
    requires c > 0 && n == q * c + r && r < c
    ensures n / c == q
  {
    var q', r' := n / c, n % c;
    assert q < q' ==> q' * c >= (q + 1) * c;
    assert q' < q ==> q * c >= (q' + 1) * c;
  }
}
