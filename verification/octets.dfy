/** Octets, numbers in network byte order, and buffers that are filled from the front. */
module Octets {

  type Octet = b: int | 0 <= b < 256

  /** A number stored in one octet. */
  function Low(n: nat): Octet {
    n % 256
  }

  /** A number in network byte order. */
  function Be16(v: nat): (s: seq<Octet>)
    requires v < 65536
    ensures |s| == 2
  {
    var high := v / 256;
    assert high < 256;
    [high, v % 256]
  }

  function U16(s: seq<Octet>, i: nat): (v: nat)
    requires i + 2 <= |s|
    ensures v < 65536
  {
    s[i] as int * 256 + s[i + 1] as int
  }

  lemma Be16Read(v: nat, s: seq<Octet>, i: nat)
    requires v < 65536 && i + 2 <= |s| && s[i..i + 2] == Be16(v)
    ensures U16(s, i) == v
  {
    assert s[i] == Be16(v)[0] && s[i + 1] == Be16(v)[1];
  }

  function Be32(v: nat): (s: seq<Octet>)
    requires v < 0x1_0000_0000
    ensures |s| == 4
  {
    Be16(v / 65536) + Be16(v % 65536)
  }

  function U32(s: seq<Octet>, i: nat): (v: nat)
    requires i + 4 <= |s|
    ensures v < 0x1_0000_0000
  {
    U16(s, i) * 65536 + U16(s, i + 2)
  }

  lemma Be32Read(v: nat, s: seq<Octet>, i: nat)
    requires v < 0x1_0000_0000 && i + 4 <= |s| && s[i..i + 4] == Be32(v)
    ensures U32(s, i) == v
  {
    assert s[i..i + 2] == s[i..i + 4][..2] && s[i + 2..i + 4] == s[i..i + 4][2..];
    Be16Read(v / 65536, s, i);
    Be16Read(v % 65536, s, i + 2);
  }

  function Be64(v: nat): (s: seq<Octet>)
    requires v < 0x1_0000_0000_0000_0000
    ensures |s| == 8
  {
    Be32(v / 0x1_0000_0000) + Be32(v % 0x1_0000_0000)
  }

  function U64(s: seq<Octet>, i: nat): (v: nat)
    requires i + 8 <= |s|
    ensures v < 0x1_0000_0000_0000_0000
  {
    U32(s, i) * 0x1_0000_0000 + U32(s, i + 4)
  }

  lemma Be64Read(v: nat, s: seq<Octet>, i: nat)
    requires v < 0x1_0000_0000_0000_0000 && i + 8 <= |s| && s[i..i + 8] == Be64(v)
    ensures U64(s, i) == v
  {
    assert s[i..i + 4] == s[i..i + 8][..4] && s[i + 4..i + 8] == s[i..i + 8][4..];
    Be32Read(v / 0x1_0000_0000, s, i);
    Be32Read(v % 0x1_0000_0000, s, i + 4);
  }

  /** The most significant octet comes first. */
  lemma Be16Order(v: nat)
    requires v < 65536
    ensures Be16(v)[0] as int * 256 + Be16(v)[1] as int == v
  {
  }

  lemma Be32Order(v: nat)
    requires v < 0x1_0000_0000
    ensures var s := Be32(v);
            ((s[0] as int * 256 + s[1] as int) * 256 + s[2] as int) * 256 + s[3] as int == v
  {
    Be16Order(v / 65536);
    Be16Order(v % 65536);
  }

  lemma Be64Order(v: nat)
    requires v < 0x1_0000_0000_0000_0000
    ensures var s := Be64(v);
            var high := ((s[0] as int * 256 + s[1] as int) * 256 + s[2] as int) * 256 + s[3] as int;
            var low := ((s[4] as int * 256 + s[5] as int) * 256 + s[6] as int) * 256 + s[7] as int;
            high * 0x1_0000_0000 + low == v
  {
    Be32Order(v / 0x1_0000_0000);
    Be32Order(v % 0x1_0000_0000);
  }

  /** The buffer begins with the octets `done`. */
  ghost predicate Holds(buf: array<Octet>, done: seq<Octet>)
    reads buf
  {
    |done| <= buf.Length && buf[..|done|] == done
  }

  /** *bp++ = octet. */
  method PutOctet(buf: array<Octet>, bp: nat, b: Octet, ghost done: seq<Octet>)
    requires Holds(buf, done) && bp == |done| < buf.Length
    modifies buf
    ensures Holds(buf, done + [b])
  {
    buf[bp] := b;
  }

  /** memcpy to bp. */
  method PutOctets(buf: array<Octet>, bp: nat, src: seq<Octet>, ghost done: seq<Octet>)
    requires Holds(buf, done) && bp == |done| && bp + |src| <= buf.Length
    modifies buf
    ensures Holds(buf, done + src)
  {
    assert done + src[..0] == done;
    for i := 0 to |src|
      invariant Holds(buf, done + src[..i])
    {
      PutOctet(buf, bp + i, src[i], done + src[..i]);
      assert done + src[..i] + [src[i]] == done + src[..i + 1];
    }
    assert src[..|src|] == src;
  }
}
