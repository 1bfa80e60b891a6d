/** The bytes of the wire and of BLR. */
module Bytes {

  type byte = x: int | 0 <= x < 256

  /** A count word, low byte first; what does not fit a USHORT is lost. */
  function Word(n: nat): (r: seq<byte>) { [n % 256, n / 256 % 256] }

  /** A number is told apart from its quotient and remainder in one way only. */
  lemma Unique(n: int, k: int, q: int, r: int)
    requires k > 0 && n == k * q + r && 0 <= r < k
    ensures n / k == q && n % k == r
  {
    var d := n / k - q;
    assert n == k * (n / k) + n % k;
    assert k * d == r - n % k by {
      assert k * d == k * (n / k) - k * q;
    }
    assert d >= 1 ==> k * d >= k;
    assert d <= -1 ==> k * d <= -k;
  }

  /** The two bytes of a word make up the number modulo the word size. */
  lemma WordValue(n: nat)
    ensures n % 0x10000 == n % 256 + 256 * (n / 256 % 256)
    ensures n % 0x10000 % 256 == n % 256 && n % 0x10000 / 256 == n / 256 % 256
  {
    var a, b := n % 256, n / 256;
    var c, d := b % 256, b / 256;
    assert n == 256 * b + a && b == 256 * d + c;
    Unique(n, 0x10000, d, 256 * c + a);
    Unique(256 * c + a, 256, c, a);
  }

  lemma Regroup<T>(a: seq<T>, b: seq<T>, c: seq<T>)
    ensures a + b + c == a + (b + c)
  {
  }
}
