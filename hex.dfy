/** Rendering of digests as lowercase hexadecimal text (Go's `%x` verb on a
    byte array) and the string helper the difficulty test uses. */
module HexEncoding {

  /** The 16 lowercase hexadecimal digits, in value order. */
  const Digits: string := "0123456789abcdef"

  /** The character for a nibble value. */
  function HexDigit(n: nat): (c: char)
    requires n < 16
    ensures c == '0' <==> n == 0
  {
    Digits[n]
  }

  /** The value of a hexadecimal digit character; 0 for any other character. */
  function HexValue(c: char): (n: nat)
    ensures n < 16
  {
    if '0' <= c <= '9' then (c - '0') as nat
    else if 'a' <= c <= 'f' then (c - 'a') as nat + 10
    else 0
  }

  lemma HexValueOfDigit(n: nat)
    requires n < 16
    ensures HexValue(HexDigit(n)) == n
  {
  }

  /** Nibble `i` of a byte sequence, counting high nibble first. */
  function Nibble(d: seq<bv8>, i: nat): (n: nat)
    requires i < 2 * |d|
    ensures n < 16
  {
    if i % 2 == 0 then d[i / 2] as nat / 16 else d[i / 2] as nat % 16
  }

  /** Dropping the first byte moves every later nibble two places down. */
  lemma NibbleShift(d: seq<bv8>, i: nat)
    requires 2 <= i < 2 * |d|
    ensures Nibble(d, i) == Nibble(d[1..], i - 2)
  {
    assert (i - 2) / 2 == i / 2 - 1 && (i - 2) % 2 == i % 2;
    assert d[1..][(i - 2) / 2] == d[i / 2];
  }

  /** `%x` of a byte sequence: two lowercase digits per byte, high nibble first. */
  function Hex(d: seq<bv8>): (r: string)
    ensures |r| == 2 * |d|
    ensures forall i :: 0 <= i < |r| ==> r[i] == HexDigit(Nibble(d, i))
  {
    if d == [] then []
    else
      var rest := Hex(d[1..]);
      assert forall i :: 2 <= i < 2 * |d| ==> Nibble(d, i) == Nibble(d[1..], i - 2) by {
        forall i | 2 <= i < 2 * |d| ensures Nibble(d, i) == Nibble(d[1..], i - 2) {
          NibbleShift(d, i);
        }
      }
      [HexDigit(d[0] as nat / 16), HexDigit(d[0] as nat % 16)] + rest
  }

  /** Reads back the bytes of a hexadecimal string of even length. */
  function Unhex(s: string): (d: seq<bv8>)
    requires |s| % 2 == 0
    ensures |d| == |s| / 2
  {
    if s == [] then []
    else [(HexValue(s[0]) * 16 + HexValue(s[1])) as bv8] + Unhex(s[2..])
  }

  /** Hex loses nothing: reading the text back gives the bytes. */
  lemma {:induction false} UnhexHex(d: seq<bv8>)
    ensures Unhex(Hex(d)) == d
  {
    if d != [] {
      var hi, lo := d[0] as nat / 16, d[0] as nat % 16;
      var rest := Hex(d[1..]);
      assert Hex(d) == [HexDigit(hi), HexDigit(lo)] + rest;
      UnhexCons(HexDigit(hi), HexDigit(lo), rest);
      HexValueOfDigit(hi);
      HexValueOfDigit(lo);
      NibblesRebuildByte(d[0]);
      UnhexHex(d[1..]);
      assert d == [d[0]] + d[1..];
    }
  }

  /** Unhex reads the first two characters as one byte. */
  lemma UnhexCons(c1: char, c2: char, rest: string)
    requires |rest| % 2 == 0
    ensures Unhex([c1, c2] + rest) == [(HexValue(c1) * 16 + HexValue(c2)) as bv8] + Unhex(rest)
  {
    assert ([c1, c2] + rest)[2..] == rest;
  }

  /** A byte is rebuilt from its high and low nibble. */
  lemma NibblesRebuildByte(b: bv8)
    ensures (b as nat / 16 * 16 + b as nat % 16) as bv8 == b
  {
    var x := b as nat;
    assert x / 16 * 16 + x % 16 == x;
  }

  /** Two digests render to the same text only if they are the same bytes. */
  lemma HexInjective(d1: seq<bv8>, d2: seq<bv8>)
    ensures Hex(d1) == Hex(d2) ==> d1 == d2
  {
    UnhexHex(d1);
    UnhexHex(d2);
  }

  /** Go's strings.Repeat for a single character. */
  function Repeat(c: char, n: nat): (r: string)
    ensures |r| == n
    ensures forall i :: 0 <= i < n ==> r[i] == c
  {
    if n == 0 then [] else [c] + Repeat(c, n - 1)
  }

  /** The first `k` characters of `Hex(d)` are all '0' exactly when its first
      `k` nibbles are zero. */
  lemma HexZeroPrefix(d: seq<bv8>, k: nat)
    requires k <= 2 * |d|
    ensures Hex(d)[..k] == Repeat('0', k) <==> forall i :: 0 <= i < k ==> Nibble(d, i) == 0
  {
    var h := Hex(d);
    if h[..k] == Repeat('0', k) {
      forall i | 0 <= i < k ensures Nibble(d, i) == 0 {
        assert h[..k][i] == '0';
      }
    }
    if forall i :: 0 <= i < k ==> Nibble(d, i) == 0 {
      assert h[..k] == Repeat('0', k);
    }
  }
}
