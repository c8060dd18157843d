/** Numbers as bytes, lowest byte first. */
module Bytes {
  newtype Byte = b: int | 0 <= b < 256

  function Power256(k: nat): (p: nat)
    ensures p > 0
  {
    if k == 0 then 1 else 256 * Power256(k - 1)
  }

  function Little(n: nat, k: nat): (w: seq<Byte>)
    ensures |w| == k
  {
    if k == 0 then [] else [(n % 256) as Byte] + Little(n / 256, k - 1)
  }

  function Number(w: seq<Byte>): nat
  {
    if w == [] then 0 else w[0] as nat + 256 * Number(w[1..])
  }

  lemma {:induction false} NumberOfLittle(n: nat, k: nat)
    requires n < Power256(k)
    ensures Number(Little(n, k)) == n
  {
    if k > 0 {
      assert Little(n, k)[1..] == Little(n / 256, k - 1);
      NumberOfLittle(n / 256, k - 1);
    }
  }
}
