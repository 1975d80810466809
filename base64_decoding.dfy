/** Decoding standard base64: `Decode` inverts `Standard`, so the encoding loses
  * nothing and a signature determines the digest it encodes. */
module Base64Decoding {
  import opened Primitives
  import opened Base64

  /** The 6-bit value of an alphabet character; any other character reads as 0. */
  function Value(c: char): (k: int)
    ensures 0 <= k < 64
  {
    if 'A' <= c <= 'Z' then c as int - 65
    else if 'a' <= c <= 'z' then c as int - 97 + 26
    else if '0' <= c <= '9' then c as int - 48 + 52
    else if c == '+' then 62
    else if c == '/' then 63
    else 0
  }

  /** The three bytes of a group, reassembled from the 6-bit values of its characters. */
  function First(c0: char, c1: char): byte
  {
    (Value(c0) * 4 + Value(c1) / 16) as byte
  }

  function Second(c1: char, c2: char): byte
  {
    ((Value(c1) % 16) * 16 + Value(c2) / 4) as byte
  }

  function Third(c2: char, c3: char): byte
  {
    ((Value(c2) % 4) * 64 + Value(c3)) as byte
  }

  /** Group by group; a final group ending in `==` holds one byte, one ending in `=` two. */
  function Decode(t: string): seq<byte>
    decreases |t|
  {
    if |t| < 4 then []
    else if |t| == 4 && t[2] == '=' then [First(t[0], t[1])]
    else if |t| == 4 && t[3] == '=' then [First(t[0], t[1]), Second(t[1], t[2])]
    else [First(t[0], t[1]), Second(t[1], t[2]), Third(t[2], t[3])] + Decode(t[4..])
  }

  /** Reading a character back gives the value it was written for; `=` is never written for a value. */
  lemma ValueOfChar(k: int)
    requires 0 <= k < 64
    ensures Value(Char(k)) == k
    ensures Char(k) != '='
  {
  }

  /** A full group decodes to its three bytes. */
  lemma QuantumDecodes(b0: byte, b1: byte, b2: byte)
    ensures var q := Quantum(b0, b1, b2);
            && q[2] != '=' && q[3] != '='
            && First(q[0], q[1]) == b0 && Second(q[1], q[2]) == b1 && Third(q[2], q[3]) == b2
  {
    var x0, x1, x2 := b0 as int, b1 as int, b2 as int;
    ValueOfChar(x0 / 4);
    ValueOfChar((x0 % 4) * 16 + x1 / 16);
    ValueOfChar((x1 % 16) * 4 + x2 / 64);
    ValueOfChar(x2 % 64);
    assert ((x0 % 4) * 16 + x1 / 16) / 16 == x0 % 4;
    assert ((x0 % 4) * 16 + x1 / 16) % 16 == x1 / 16;
    assert ((x1 % 16) * 4 + x2 / 64) / 4 == x1 % 16;
    assert ((x1 % 16) * 4 + x2 / 64) % 4 == x2 / 64;
  }

  /** A final group of one or two bytes decodes to those bytes. */
  lemma FinalQuantumDecodes(s: seq<byte>)
    requires 1 <= |s| <= 2
    ensures Decode(FinalQuantum(s)) == s
  {
    var x0 := s[0] as int;
    ValueOfChar(x0 / 4);
    if |s| == 1 {
      ValueOfChar((x0 % 4) * 16);
      assert ((x0 % 4) * 16) / 16 == x0 % 4;
    } else {
      var x1 := s[1] as int;
      ValueOfChar((x0 % 4) * 16 + x1 / 16);
      ValueOfChar((x1 % 16) * 4);
      assert ((x0 % 4) * 16 + x1 / 16) / 16 == x0 % 4;
      assert ((x0 % 4) * 16 + x1 / 16) % 16 == x1 / 16;
      assert ((x1 % 16) * 4) / 4 == x1 % 16;
    }
  }

  /** A leading group without `=` decodes to three bytes, followed by the rest. */
  lemma DecodeFullGroup(q: string, t: string)
    requires |q| == 4 && q[2] != '=' && q[3] != '='
    ensures Decode(q + t) == [First(q[0], q[1]), Second(q[1], q[2]), Third(q[2], q[3])] + Decode(t)
  {
    assert (q + t)[4..] == t;
    assert (q + t)[..4] == q;
  }

  /** Decoding undoes the standard encoding. */
  lemma {:induction false} DecodeStandard(s: seq<byte>)
    ensures Decode(Standard(s)) == s
  {
    if 1 <= |s| <= 2 {
      FinalQuantumDecodes(s);
    } else if |s| >= 3 {
      DecodeStandard(s[3..]);
      QuantumDecodes(s[0], s[1], s[2]);
      DecodeFullGroup(Quantum(s[0], s[1], s[2]), Standard(s[3..]));
      assert s == [s[0], s[1], s[2]] + s[3..];
    }
  }

  /** So the standard encoding never maps two byte strings to the same text. */
  lemma StandardInjective(a: seq<byte>, b: seq<byte>)
    requires Standard(a) == Standard(b)
    ensures a == b
  {
    DecodeStandard(a);
    DecodeStandard(b);
  }
}
