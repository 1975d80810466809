/** The client's hand-written base64 encoder (used for the request signature)
  * and the standard encoding of section 4 of RFC 4648 that it must reproduce. */
module Base64 {
  import opened Primitives

  /** The encoder's table `base64code`: value k is written as `Alphabet[k]`. */
  const Alphabet: string := "ABCDEFGHIJKLMNOPQRSTUVWXYZ" + "abcdefghijklmnopqrstuvwxyz" + "0123456789" + "+/"

  /** The character RFC 4648 (section 4, table 1) assigns to a 6-bit value:
    * `A`-`Z` for 0-25, `a`-`z` for 26-51, `0`-`9` for 52-61, then `+` and `/`. */
  function Char(k: int): char
    requires 0 <= k < 64
  {
    if k < 26 then (65 + k) as char
    else if k < 52 then (97 + k - 26) as char
    else if k < 62 then (48 + k - 52) as char
    else if k == 62 then '+'
    else '/'
  }

  /** `base64code.charAt(k)`. */
  function CharAt(k: int): char
    requires 0 <= k < 64
  {
    assert |Alphabet| == 64;
    Alphabet[k]
  }

  /** The encoder's table is the RFC's alphabet. */
  lemma AlphabetIsStandard()
    ensures |Alphabet| == 64
    ensures forall k :: 0 <= k < 64 ==> Alphabet[k] == Char(k)
  {
    var upper := "ABCDEFGHIJKLMNOPQRSTUVWXYZ";
    var lower := "abcdefghijklmnopqrstuvwxyz";
    var digits := "0123456789";
    assert upper == seq(26, k requires 0 <= k < 26 => Char(k));
    assert lower == seq(26, k requires 0 <= k < 26 => Char(k + 26));
    assert digits == seq(10, k requires 0 <= k < 10 => Char(k + 52));
    assert Alphabet == upper + lower + digits + "+/";
  }

  /** The characters of the alphabet, by range. */
  predicate InAlphabet(c: char)
  {
    'A' <= c <= 'Z' || 'a' <= c <= 'z' || '0' <= c <= '9' || c == '+' || c == '/'
  }

  /** Every value is written as an alphabet character, never as `=`. */
  lemma CharInAlphabet(k: int)
    requires 0 <= k < 64
    ensures InAlphabet(Char(k)) && Char(k) != '='
  {
  }

  /** The range predicate describes exactly the characters of the table. */
  lemma AlphabetMembers(c: char)
    ensures InAlphabet(c) <==> c in Alphabet
  {
    AlphabetIsStandard();
    if c in Alphabet {
      var k :| 0 <= k < 64 && Alphabet[k] == c;
      CharInAlphabet(k);
    }
    if InAlphabet(c) {
      var k := if c <= 'Z' && 'A' <= c then c as int - 65
               else if 'a' <= c then c as int - 97 + 26
               else if '0' <= c <= '9' then c as int - 48 + 52
               else if c == '+' then 62 else 63;
      assert Alphabet[k] == c;
    }
  }

  /** How many zero bytes the encoder appends to `n` input bytes. */
  function PadCount(n: nat): nat
  {
    (3 - n % 3) % 3
  }

  /** Padding fills the input up to a whole number of 3-byte groups. */
  function PaddedGroupCount(n: nat): (groups: nat)
    ensures n + PadCount(n) == 3 * groups
    ensures 3 * groups - 2 <= n <= 3 * groups
  {
    (n + 2) / 3
  }

  lemma PadCountStep(n: nat)
    requires n >= 3
    ensures PadCount(n - 3) == PadCount(n)
  {
    assert (n - 3) % 3 == n % 3;
  }

  function Zeros(n: nat): seq<byte>
  {
    seq(n, _ => 0)
  }

  // ---------------------------------------------------------------------------
  // Reference: section 4 of RFC 4648
  // ---------------------------------------------------------------------------

  /** A full 24-bit input group: its four 6-bit pieces, high bits first,
    * taken straight from the bits of the three bytes. */
  function Quantum(b0: byte, b1: byte, b2: byte): string
  {
    [Char(b0 as int / 4),
     Char((b0 as int % 4) * 16 + b1 as int / 16),
     Char((b1 as int % 16) * 4 + b2 as int / 64),
     Char(b2 as int % 64)]
  }

  /** The final group of one or two bytes: the bits are filled up with zero bits
    * to a whole number of 6-bit pieces, and `=` fills the group to four characters. */
  function FinalQuantum(s: seq<byte>): string
    requires 1 <= |s| <= 2
  {
    if |s| == 1 then [Char(s[0] as int / 4), Char((s[0] as int % 4) * 16), '=', '=']
    else [Char(s[0] as int / 4), Char((s[0] as int % 4) * 16 + s[1] as int / 16), Char((s[1] as int % 16) * 4), '=']
  }

  /** Standard base64: every full group of three bytes becomes four characters,
    * a final group of one or two bytes `FinalQuantum`. */
  function Standard(s: seq<byte>): string
    decreases |s|
  {
    if |s| == 0 then ""
    else if |s| < 3 then FinalQuantum(s)
    else Quantum(s[0], s[1], s[2]) + Standard(s[3..])
  }

  /** The standard encoding of `n` bytes has `4(n+p)/3` characters. */
  lemma {:induction false} StandardLength(s: seq<byte>)
    ensures |Standard(s)| == 4 * (|s| + PadCount(|s|)) / 3
  {
    var g := PaddedGroupCount(|s|);
    assert 4 * (|s| + PadCount(|s|)) / 3 == 4 * g;
    GroupLength(s);
  }

  lemma {:induction false} GroupLength(s: seq<byte>)
    ensures |Standard(s)| == 4 * PaddedGroupCount(|s|)
  {
    if |s| >= 3 {
      GroupLength(s[3..]);
      assert PaddedGroupCount(|s|) == PaddedGroupCount(|s[3..]|) + 1;
    }
  }

  /** Its last `p` characters are `=` and all others come from the alphabet. */
  lemma {:induction false} StandardCharacters(s: seq<byte>)
    ensures |Standard(s)| >= PadCount(|s|)
    ensures forall k :: |Standard(s)| - PadCount(|s|) <= k < |Standard(s)| ==> Standard(s)[k] == '='
    ensures forall k :: 0 <= k < |Standard(s)| - PadCount(|s|) ==> InAlphabet(Standard(s)[k])
  {
    if |s| >= 3 {
      StandardCharacters(s[3..]);
      PadCountStep(|s|);
      QuantumCharacters(s[0], s[1], s[2]);
      ConcatCharacters(Quantum(s[0], s[1], s[2]), Standard(s[3..]), PadCount(|s|));
    } else if |s| == 2 {
      CharInAlphabet(s[0] as int / 4);
      CharInAlphabet((s[0] as int % 4) * 16 + s[1] as int / 16);
      CharInAlphabet((s[1] as int % 16) * 4);
    } else if |s| == 1 {
      CharInAlphabet(s[0] as int / 4);
      CharInAlphabet((s[0] as int % 4) * 16);
    }
  }

  lemma QuantumCharacters(b0: byte, b1: byte, b2: byte)
    ensures forall k :: 0 <= k < 4 ==> InAlphabet(Quantum(b0, b1, b2)[k])
  {
    CharInAlphabet(b0 as int / 4);
    CharInAlphabet((b0 as int % 4) * 16 + b1 as int / 16);
    CharInAlphabet((b1 as int % 16) * 4 + b2 as int / 64);
    CharInAlphabet(b2 as int % 64);
  }

  /** Four alphabet characters in front keep the shape "alphabet, then `p` times `=`". */
  lemma ConcatCharacters(q: string, t: string, p: nat)
    requires |q| == 4 && forall k :: 0 <= k < 4 ==> InAlphabet(q[k])
    requires |t| >= p
    requires forall k :: |t| - p <= k < |t| ==> t[k] == '='
    requires forall k :: 0 <= k < |t| - p ==> InAlphabet(t[k])
    ensures forall k :: |q + t| - p <= k < |q + t| ==> (q + t)[k] == '='
    ensures forall k :: 0 <= k < |q + t| - p ==> InAlphabet((q + t)[k])
  {
    forall k | 0 <= k < |q + t|
      ensures (q + t)[k] == if k < 4 then q[k] else t[k - 4]
    {
    }
  }

  // ---------------------------------------------------------------------------
  // The encoder as written: zero-pad, encode whole groups, then overwrite the tail
  // ---------------------------------------------------------------------------

  /** The 24-bit big-endian value the encoder builds from three bytes. */
  function Word(b0: byte, b1: byte, b2: byte): int
  {
    b0 as int * 0x10000 + b1 as int * 0x100 + b2 as int
  }

  /** The four characters the loop emits for a word `j`: Java's `(j >> 18) & 0x3f`,
    * `(j >> 12) & 0x3f`, `(j >> 6) & 0x3f` and `j & 0x3f`, written as division and
    * remainder, which they equal for the non-negative `j < 2^24` the loop builds. */
  function WordChars(j: int): string
    requires 0 <= j
  {
    [Char((j / 0x40000) % 64), Char((j / 0x1000) % 64), Char((j / 0x40) % 64), Char(j % 64)]
  }

  /** Shifting and masking the word yields exactly the RFC's four 6-bit pieces. */
  lemma WordSextets(b0: byte, b1: byte, b2: byte)
    ensures WordChars(Word(b0, b1, b2)) == Quantum(b0, b1, b2)
  {
    FirstSextet(b0, b1, b2);
    SecondSextet(b0, b1, b2);
    ThirdSextet(b0, b1, b2);
    FourthSextet(b0, b1, b2);
  }

  /** Division by the shift widths `2^18`, `2^12`, `2^6` is determined by quotient and remainder. */
  lemma DivisionOf(x: int, d: int, q: int, r: int)
    requires d == 0x40000 || d == 0x1000 || d == 0x40
    requires 0 <= r < d && x == q * d + r
    ensures x / d == q && x % d == r
  {
    if d == 0x40000 {
      assert x == q * 0x40000 + r;
    } else if d == 0x1000 {
      assert x == q * 0x1000 + r;
    } else {
      assert x == q * 0x40 + r;
    }
  }

  lemma FirstSextet(b0: byte, b1: byte, b2: byte)
    ensures Word(b0, b1, b2) / 0x40000 % 64 == b0 as int / 4
  {
    var q := b0 as int / 4;
    DivisionOf(Word(b0, b1, b2), 0x40000, q, (b0 as int % 4) * 0x10000 + b1 as int * 0x100 + b2 as int);
    DivisionOf(q, 0x40, 0, q);
  }

  lemma SecondSextet(b0: byte, b1: byte, b2: byte)
    ensures Word(b0, b1, b2) / 0x1000 % 64 == (b0 as int % 4) * 16 + b1 as int / 16
  {
    var q := b0 as int * 16 + b1 as int / 16;
    DivisionOf(Word(b0, b1, b2), 0x1000, q, (b1 as int % 16) * 0x100 + b2 as int);
    DivisionOf(q, 0x40, b0 as int / 4, (b0 as int % 4) * 16 + b1 as int / 16);
  }

  lemma ThirdSextet(b0: byte, b1: byte, b2: byte)
    ensures Word(b0, b1, b2) / 0x40 % 64 == (b1 as int % 16) * 4 + b2 as int / 64
  {
    var q := b0 as int * 0x400 + b1 as int * 4 + b2 as int / 64;
    DivisionOf(Word(b0, b1, b2), 0x40, q, b2 as int % 64);
    DivisionOf(q, 0x40, b0 as int * 16 + b1 as int / 16, (b1 as int % 16) * 4 + b2 as int / 64);
  }

  lemma FourthSextet(b0: byte, b1: byte, b2: byte)
    ensures Word(b0, b1, b2) % 64 == b2 as int % 64
  {
    var q := b0 as int * 0x400 + b1 as int * 4 + b2 as int / 64;
    DivisionOf(Word(b0, b1, b2), 0x40, q, b2 as int % 64);
  }

  /** The characters of a zero-padded input, three bytes at a time. */
  function Groups(s: seq<byte>): string
  {
    if |s| < 3 then "" else Quantum(s[0], s[1], s[2]) + Groups(s[3..])
  }

  /** Encoding `k` whole groups and then more bytes is encoding each part. */
  lemma {:induction false} GroupsAppend(a: seq<byte>, b: seq<byte>, k: nat)
    requires |a| == 3 * k
    ensures Groups(a + b) == Groups(a) + Groups(b)
  {
    if k > 0 {
      assert (a + b)[3..] == a[3..] + b;
      GroupsAppend(a[3..], b, k - 1);
    } else {
      assert a + b == b;
    }
  }

  /** A final group of one byte, zero-padded to three, encodes to the characters
    * of `FinalQuantum` once its last two characters become `=`. */
  lemma OneByteGroup(s: seq<byte>)
    requires |s| == 1
    ensures |Groups(s + Zeros(2))| == 4
    ensures Groups(s + Zeros(2))[..2] + "==" == FinalQuantum(s)
  {
    assert s + Zeros(2) == [s[0], 0, 0];
    assert [s[0], 0, 0][3..] == [];
  }

  /** A final group of two bytes, zero-padded to three, encodes to the characters
    * of `FinalQuantum` once its last character becomes `=`. */
  lemma TwoByteGroup(s: seq<byte>)
    requires |s| == 2
    ensures |Groups(s + Zeros(1))| == 4
    ensures Groups(s + Zeros(1))[..3] + "=" == FinalQuantum(s)
  {
    assert s + Zeros(1) == [s[0], s[1], 0];
    assert [s[0], s[1], 0][3..] == [];
  }

  /** One more turn of the loop appends the next group's four characters. */
  lemma NextGroup(s: seq<byte>, k: nat)
    requires 3 * k + 3 <= |s|
    ensures Groups(s[..3 * k + 3]) == Groups(s[..3 * k]) + Quantum(s[3 * k], s[3 * k + 1], s[3 * k + 2])
  {
    var i := 3 * k;
    assert s[..i + 3] == s[..i] + s[i..i + 3];
    GroupsAppend(s[..i], s[i..i + 3], k);
    assert s[i..i + 3][3..] == [];
  }

  /** Zero-padding `s`, encoding the groups and replacing the last `p` characters
    * by `=` gives the standard encoding of `s`. */
  ghost predicate PaddedEncodingIsStandard(s: seq<byte>)
  {
    var p := PadCount(|s|);
    var g := Groups(s + Zeros(p));
    |g| >= p && g[..|g| - p] + "=="[..p] == Standard(s)
  }

  /** The encoder's zero-pad-then-overwrite scheme agrees with the standard
    * encoding on every input. */
  lemma {:induction false} PaddedGroupsAreStandard(s: seq<byte>)
    ensures PaddedEncodingIsStandard(s)
  {
    if |s| >= 3 {
      PaddedGroupsAreStandard(s[3..]);
      FullGroupStep(s);
    } else {
      ShortInputStep(s);
    }
  }

  /** An input shorter than one group is its own final group. */
  lemma ShortInputStep(s: seq<byte>)
    requires |s| < 3
    ensures PaddedEncodingIsStandard(s)
  {
    if |s| == 2 {
      TwoByteGroup(s);
      assert PadCount(2) == 1;
    } else if |s| == 1 {
      OneByteGroup(s);
      assert PadCount(1) == 2;
    } else {
      assert s + Zeros(0) == [];
    }
  }

  /** A leading full group adds the same four characters to both encodings. */
  lemma FullGroupStep(s: seq<byte>)
    requires |s| >= 3 && PaddedEncodingIsStandard(s[3..])
    ensures PaddedEncodingIsStandard(s)
  {
    var p := PadCount(|s|);
    PadCountStep(|s|);
    var z := s + Zeros(p);
    assert z[3..] == s[3..] + Zeros(p);
    var q := Quantum(s[0], s[1], s[2]);
    var t := Groups(z[3..]);
    assert Groups(z) == q + t;
    assert (q + t)[..|q + t| - p] == q + t[..|t| - p];
  }

  /** `zeroPad`: a fresh zero-filled array of `length` bytes with `bytes` copied
    * to its front. */
  method ZeroPad(length: nat, bytes: array<byte>) returns (padded: array<byte>)
    requires bytes.Length <= length
    ensures fresh(padded)
    ensures padded[..] == bytes[..] + Zeros(length - bytes.Length)
  {
    padded := new byte[length](_ => 0);
    forall i | 0 <= i < bytes.Length {
      padded[i] := bytes[i];
    }
    assert padded[..] == bytes[..] + Zeros(length - bytes.Length);
  }

  /** The four characters the loop looks up in the table for the next word are
    * the next group's characters. */
  lemma EncodeStep(s: seq<byte>, k: nat, j: int)
    requires 3 * k + 3 <= |s|
    requires j == Word(s[3 * k], s[3 * k + 1], s[3 * k + 2])
    ensures Groups(s[..3 * k + 3]) == Groups(s[..3 * k]) +
              [CharAt((j / 0x40000) % 64), CharAt((j / 0x1000) % 64),
               CharAt((j / 0x40) % 64), CharAt(j % 64)]
  {
    AlphabetIsStandard();
    WordSextets(s[3 * k], s[3 * k + 1], s[3 * k + 2]);
    NextGroup(s, k);
  }

  /** Cutting the padding characters off the whole encoded groups and writing `=`
    * in their place gives the standard encoding. */
  lemma EncodeFinish(input: seq<byte>, padded: seq<byte>, encoded: string)
    requires padded == input + Zeros(PadCount(|input|))
    requires encoded == Groups(padded)
    ensures |encoded| >= PadCount(|input|)
    ensures encoded[..|encoded| - PadCount(|input|)] + "=="[..PadCount(|input|)] == Standard(input)
  {
    PaddedGroupsAreStandard(input);
  }

  /** `encode`: the standard base64 encoding of the input bytes. */
  method Encode(input: array<byte>) returns (encoded: string)
    ensures encoded == Standard(input[..])
  {
    encoded := "";
    var paddingCount := (3 - input.Length % 3) % 3;
    ghost var groups := PaddedGroupCount(input.Length);
    var padded := ZeroPad(input.Length + paddingCount, input);
    ghost var s := padded[..];
    var i := 0;
    ghost var done := 0;
    while i < padded.Length
      invariant i == 3 * done && done <= groups && padded.Length == 3 * groups
      invariant padded[..] == s
      invariant encoded == Groups(s[..i])
    {
      assert padded[i] == s[3 * done] && padded[i + 1] == s[3 * done + 1] && padded[i + 2] == s[3 * done + 2];
      var j := padded[i] as int * 0x10000 + padded[i + 1] as int * 0x100 + padded[i + 2] as int;
      EncodeStep(s, done, j);
      encoded := encoded + [CharAt((j / 0x40000) % 64), CharAt((j / 0x1000) % 64),
                            CharAt((j / 0x40) % 64), CharAt(j % 64)];
      i, done := i + 3, done + 1;
    }
    assert s[..i] == s;
    EncodeFinish(input[..], s, encoded);
    encoded := encoded[..|encoded| - paddingCount] + "=="[..paddingCount];
  }
}
