/** Base64 (section 4 of RFC 4648) as the panel encodes and decodes it. `|` and `<<` on disjoint bit fields
    are written as sums and products; the decoder's accumulator is the low 32 bits of what it is told to hold. */
module Base64 {
  import opened Words
  import opened Sequences

  type sextet = i: int | 0 <= i < 64

  /** Quotient and remainder, from a decomposition. */
  lemma DivMod(w: int, m: int, k: int, r: int)
    requires m > 0 && 0 <= r < m && w == m * k + r
    ensures w / m == k && w % m == r
  {
    var d := w / m - k;
    assert m * d == r - w % m;
    AtLeastOne(m, d);
  }

  lemma AtLeastOne(m: int, d: int)
    requires m > 0
    ensures d >= 1 ==> m * d >= m
    ensures d <= -1 ==> m * d <= -m
  {
  }

  function Letter(i: sextet): char {
    if i < 26 then ('A' as int + i) as char
    else if i < 52 then ('a' as int + i - 26) as char
    else if i < 62 then ('0' as int + i - 52) as char
    else if i == 62 then '+' else '/'
  }

  /** The decoder's table: -1 for a character that is not in the alphabet. */
  function Value(c: char): int {
    if 'A' <= c <= 'Z' then c as int - 'A' as int
    else if 'a' <= c <= 'z' then c as int - 'a' as int + 26
    else if '0' <= c <= '9' then c as int - '0' as int + 52
    else if c == '+' then 62 else if c == '/' then 63 else -1
  }

  lemma ValueOfLetter(i: sextet)
    ensures Value(Letter(i)) == i && Letter(i) != '='
  {
  }

  // ---------------------------------------------------------------- encoding

  /** Up to three bytes as a 24-bit number. */
  function Word(x: byte, y: byte, z: byte): int { x as int * 65536 + y as int * 256 + z as int }

  function At(b: seq<byte>, i: nat): byte { if i < |b| then b[i] else 0 }

  /** One to three bytes as four characters: the number's sextets, `=` where no byte reaches. */
  function Quad(b: seq<byte>): seq<char> {
    var n := Word(At(b, 0), At(b, 1), At(b, 2));
    [Letter(n / 262144 % 64), Letter(n / 4096 % 64),
     if |b| > 1 then Letter(n / 64 % 64) else '=', if |b| > 2 then Letter(n % 64) else '=']
  }

  function Encode(data: seq<byte>): seq<char> {
    if data == [] then [] else
      var k := if |data| < 3 then |data| else 3;
      Quad(data[..k]) + Encode(data[k..])
  }

  lemma EncodeStep(data: seq<byte>, i: nat)
    requires i < |data|
    ensures var j := if |data| - i < 3 then |data| else i + 3;
            Encode(data[i..]) == Quad(data[i..j]) + Encode(data[j..])
  {
    var k := if |data| - i < 3 then |data| - i else 3;
    assert data[i..][..k] == data[i..i + k] && data[i..][k..] == data[i + k..];
  }

  method Base64Encode(data: seq<byte>) returns (out: seq<char>)
    ensures out == Encode(data)
  {
    out := [];
    var i, len := 0, |data|;
    ghost var done := 0;
    while i < len
      invariant done == if i < len then i else len
      invariant Encode(data) == out + Encode(data[done..])
    {
      var n := data[i] as int * 65536;
      if i + 1 < len { n := n + data[i + 1] as int * 256; }
      if i + 2 < len { n := n + data[i + 2]; }
      EncodeStep(data, i);
      done := if len - i < 3 then len else i + 3;
      ghost var group := data[i..done];
      assert n == Word(At(group, 0), At(group, 1), At(group, 2));
      var quad := [Letter(n / 262144 % 64), Letter(n / 4096 % 64),
                   if i + 1 < len then Letter(n / 64 % 64) else '=',
                   if i + 2 < len then Letter(n % 64) else '='];
      assert quad == Quad(group);
      Assoc(out, quad, Encode(data[done..]));
      out := out + quad;
      i := i + 3;
    }
  }

  lemma {:induction false} EncodedLength(data: seq<byte>)
    ensures |Encode(data)| == (|data| + 2) / 3 * 4
  {
    if data != [] {
      var k := if |data| < 3 then |data| else 3;
      EncodedLength(data[k..]);
      OneMoreGroup(|data|);
      assert |Encode(data)| == 4 + |Encode(data[k..])|;
    }
  }

  lemma OneMoreGroup(n: nat)
    ensures n > 3 ==> (n + 2) / 3 == (n - 3 + 2) / 3 + 1
    ensures 1 <= n <= 3 ==> (n + 2) / 3 == 1
  {
  }

  // ---------------------------------------------------------------- the alphabet and the bits

  const ALPHABET := "ABCDEFGHIJKLMNOPQRSTUVWXYZabcdefghijklmnopqrstuvwxyz0123456789+/"

  lemma Capital(k: nat)
    requires k < 26
    ensures ALPHABET[k] == ('A' as int + k) as char
  {
    var capitals := "ABCDEFGHIJKLMNOPQRSTUVWXYZ";
    assert ALPHABET[k] == capitals[k];
  }

  lemma LetterIsInAlphabet(i: sextet, c: char)
    ensures |ALPHABET| == 64 && Letter(i) == ALPHABET[i]
    ensures Value(c) == -1 <==> c !in ALPHABET
    ensures Value(c) != -1 ==> 0 <= Value(c) < 64 && ALPHABET[Value(c)] == c
  {
    forall k | 0 <= k < 26 ensures ALPHABET[k] == ('A' as int + k) as char { Capital(k); }
    assert forall k :: 26 <= k < 52 ==> ALPHABET[k] as int == 'a' as int + k - 26;
    assert forall k :: 52 <= k < 62 ==> ALPHABET[k] as int == '0' as int + k - 52;
    assert ALPHABET[62] == '+' && ALPHABET[63] == '/';
    if Value(c) != -1 { assert ALPHABET[Value(c)] == c; }
  }

  /** A character as a digit; padding counts as 0. */
  function Digit(c: char): int { if c == '=' then 0 else Value(c) }

  /** Four characters spell three bytes: the same number, in base 64 and in base 256. */
  predicate Spells(q: seq<char>, x: byte, y: byte, z: byte)
    requires |q| == 4
  {
    Digit(q[0]) * 262144 + Digit(q[1]) * 4096 + Digit(q[2]) * 64 + Digit(q[3]) == x as int * 65536 + y as int * 256 + z
  }

  lemma DigitsOf(n: int)
    requires 0 <= n < 16777216
    ensures n == n / 262144 % 64 * 262144 + n / 4096 % 64 * 4096 + n / 64 % 64 * 64 + n % 64
  {
    assert n == n / 64 * 64 + n % 64;
    assert n / 64 == n / 64 / 64 * 64 + n / 64 % 64;
    assert n / 4096 == n / 64 / 64;
    assert n / 4096 == n / 4096 / 64 * 64 + n / 4096 % 64;
    assert n / 262144 == n / 4096 / 64;
    assert n / 262144 % 64 == n / 262144;
  }

  lemma QuadSpells(b: seq<byte>)
    requires 1 <= |b| <= 3
    ensures Spells(Quad(b), b[0], At(b, 1), At(b, 2))
    ensures Quad(b)[2] == '=' <==> |b| < 2
    ensures Quad(b)[3] == '=' <==> |b| < 3
  {
    var x, y, z := b[0], At(b, 1), At(b, 2);
    var n := Word(x, y, z);
    DigitsOf(n);
    ValueOfLetter(n / 262144 % 64);
    ValueOfLetter(n / 4096 % 64);
    ValueOfLetter(n / 64 % 64);
    ValueOfLetter(n % 64);
    LastDigits(x, y, z);
  }

  lemma LastDigits(x: byte, y: byte, z: byte)
    ensures z == 0 ==> Word(x, y, z) % 64 == 0
    ensures y == 0 && z == 0 ==> Word(x, y, z) / 64 % 64 == 0
  {
    WordSextets(x, y, z);
    assert z == 0 ==> z / 64 == 0 && z % 64 == 0;
    assert y == 0 ==> y % 16 == 0;
  }

  /** Four characters stand for the k-th group of three bytes, a missing byte counting as 0 and leaving padding. */
  predicate StandsFor(q: seq<char>, data: seq<byte>, k: nat)
    requires |q| == 4 && 3 * k < |data|
  {
    && Spells(q, data[3 * k], At(data, 3 * k + 1), At(data, 3 * k + 2))
    && (q[2] == '=' <==> |data| < 3 * k + 2) && (q[3] == '=' <==> |data| < 3 * k + 3)
  }

  lemma FirstGroup(data: seq<byte>, n: nat)
    requires data != [] && n == if |data| < 3 then |data| else 3
    ensures StandsFor(Quad(data[..n]), data, 0)
  {
    QuadSpells(data[..n]);
    assert At(data[..n], 1) == At(data, 1) && At(data[..n], 2) == At(data, 2);
  }

  lemma LaterGroup(q: seq<char>, data: seq<byte>, k: nat)
    requires |q| == 4 && 0 < k && 3 * k < |data| && StandsFor(q, data[3..], k - 1)
    ensures StandsFor(q, data, k)
  {
  }

  lemma LaterText(first: seq<char>, rest: seq<char>, k: nat)
    requires |first| == 4 && 0 < k && 4 * k <= |rest|
    ensures (first + rest)[4 * k..4 * k + 4] == rest[4 * (k - 1)..4 * (k - 1) + 4]
  {
  }

  /** The encoding of any bytes, group by group. */
  lemma {:induction false} EncodingSpells(data: seq<byte>, k: nat)
    requires 3 * k < |data|
    ensures 4 * k + 4 <= |Encode(data)| && StandsFor(Encode(data)[4 * k..4 * k + 4], data, k)
  {
    var n := if |data| < 3 then |data| else 3;
    var first, rest := Quad(data[..n]), Encode(data[n..]);
    if k == 0 {
      FirstGroup(data, n);
      assert (first + rest)[..4] == first;
    } else {
      EncodingSpells(data[3..], k - 1);
      LaterText(first, rest, k);
      LaterGroup(rest[4 * (k - 1)..4 * (k - 1) + 4], data, k);
    }
  }

  // ---------------------------------------------------------------- decoding

  function Power(bits: int): int
    requires 0 <= bits <= 4
  {
    if bits == 0 then 1 else if bits == 1 then 2 else if bits == 2 then 4 else if bits == 3 then 8 else 16
  }

  /** Decoding the rest of a text from the loop's state. */
  function DecodeFrom(text: seq<char>, val: int, bits: int): seq<byte>
    requires bits == -8 || bits == -2 || bits == -4 || bits == -6
  {
    if text == [] || text[0] == '=' then []
    else if Value(text[0]) == -1 then DecodeFrom(text[1..], val, bits)
    else
      var val' := (val * 64 + Value(text[0])) % TWO32;
      if bits + 6 >= 0 then [val' / Power(bits + 6) % 256] + DecodeFrom(text[1..], val', bits - 2)
      else DecodeFrom(text[1..], val', bits + 6)
  }

  function Decode(text: seq<char>): seq<byte> { DecodeFrom(text, 0, -8) }

  lemma DecodeStep(text: seq<char>, i: nat, val: int, bits: int)
    requires i < |text| && (bits == -8 || bits == -2 || bits == -4 || bits == -6)
    ensures var val' := (val * 64 + Value(text[i])) % TWO32;
            DecodeFrom(text[i..], val, bits) ==
            if text[i] == '=' then []
            else if Value(text[i]) == -1 then DecodeFrom(text[i + 1..], val, bits)
            else if bits == -8 then DecodeFrom(text[i + 1..], val', -2)
            else [val' / Power(bits + 6) % 256] + DecodeFrom(text[i + 1..], val', bits - 2)
  {
    assert text[i..][1..] == text[i + 1..];
  }

  method Base64Decode(text: seq<char>) returns (out: seq<byte>)
    ensures out == Decode(text)
  {
    out := [];
    var val, bits := 0, -8;
    for i := 0 to |text|
      invariant bits == -8 || bits == -2 || bits == -4 || bits == -6
      invariant out + DecodeFrom(text[i..], val, bits) == Decode(text)
    {
      DecodeStep(text, i, val, bits);
      if text[i] == '=' { return; }
      if Value(text[i]) == -1 { continue; }
      val := (val * 64 + Value(text[i])) % TWO32;
      bits := bits + 6;
      if bits >= 0 {
        ghost var tail := DecodeFrom(text[i + 1..], val, bits - 8);
        var octet := val / Power(bits) % 256;
        assert out + ([octet] + tail) == out + [octet] + tail;
        out := out + [octet];
        bits := bits - 8;
      }
    }
  }

  // ---------------------------------------------------------------- what decoding means

  /** The sextets a decoder sees: letters up to the first `=`. */
  function Sextets(text: seq<char>): seq<sextet> {
    if text == [] || text[0] == '=' then []
    else if Value(text[0]) == -1 then Sextets(text[1..])
    else [Value(text[0])] + Sextets(text[1..])
  }

  /** The reference decoder: sextets four at a time, three bytes for each whole group and one byte fewer
      than sextets for what is left, with no accumulator. */
  function Bytes(s: seq<sextet>): seq<byte> {
    if |s| < 2 then []
    else if |s| == 2 then [High(s[0], s[1])]
    else if |s| == 3 then [High(s[0], s[1]), Middle(s[1], s[2])]
    else [High(s[0], s[1]), Middle(s[1], s[2]), Low(s[2], s[3])] + Bytes(s[4..])
  }

  function High(a: sextet, b: sextet): byte { a as int * 4 + b / 16 }

  function Middle(b: sextet, c: sextet): byte { (b % 16) as int * 16 + c / 4 }

  function Low(c: sextet, d: sextet): byte { (c % 4) as int * 64 + d }

  /** Decoding depends on the sextets alone; the rest of the state is the accumulator. */
  function Feed(s: seq<sextet>, val: int, bits: int): seq<byte>
    requires bits == -8 || bits == -2 || bits == -4 || bits == -6
  {
    if s == [] then [] else
      var val' := (val * 64 + s[0]) % TWO32;
      if bits + 6 >= 0 then [val' / Power(bits + 6) % 256] + Feed(s[1..], val', bits - 2)
      else Feed(s[1..], val', bits + 6)
  }

  lemma {:induction false} DecodeFeeds(text: seq<char>, val: int, bits: int)
    requires bits == -8 || bits == -2 || bits == -4 || bits == -6
    ensures DecodeFrom(text, val, bits) == Feed(Sextets(text), val, bits)
  {
    if text != [] && text[0] != '=' {
      if Value(text[0]) == -1 {
        DecodeFeeds(text[1..], val, bits);
      } else {
        var val' := (val * 64 + Value(text[0])) % TWO32;
        DecodeFeeds(text[1..], val', if bits + 6 >= 0 then bits - 2 else bits + 6);
        assert Sextets(text)[1..] == Sextets(text[1..]);
      }
    }
  }

  function Shift(val: int, t: sextet): int { (val * 64 + t) % TWO32 }

  /** Of the accumulator only the low 6 bits outlive a step and only the low 12 are read; the wrap at
      32 bits cannot reach them. */
  lemma Wrap(val: int, t: sextet)
    ensures Shift(val, t) % 64 == t
    ensures Shift(val, t) % 4096 == val % 64 * 64 + t
  {
    var q := (val * 64 + t) / TWO32;
    DivMod(Shift(val, t), 64, val - q * 67108864, t);
    DivMod(Shift(val, t), 4096, val / 64 - q * 1048576, val % 64 * 64 + t);
  }

  lemma Window16(w: int)
    ensures w / 16 % 256 == w % 4096 / 16
  {
    DivMod(w, 16, 256 * (w / 4096) + w % 4096 / 16, w % 4096 % 16);
    DivMod(w / 16, 256, w / 4096, w % 4096 / 16);
  }

  lemma Window1(w: int)
    ensures w % 256 == w % 4096 % 256
  {
    DivMod(w, 256, w / 4096 * 16 + w % 4096 / 256, w % 4096 % 256);
  }

  lemma OctetHigh(a: sextet, t: sextet, w: int)
    requires w % 4096 == a as int * 64 + t
    ensures w / 16 % 256 == High(a, t)
  {
    Window16(w);
    DivMod(a as int * 64 + t, 16, a as int * 4 + t / 16, t % 16);
  }

  lemma OctetMiddle(a: sextet, t: sextet, w: int)
    requires w % 4096 == a as int * 64 + t
    ensures w / 4 % 256 == Middle(a, t)
  {
    DivMod(w, 4, w / 4096 * 1024 + a as int * 16 + t / 4, t % 4);
    DivMod(w / 4, 256, w / 4096 * 4 + a / 16, (a % 16) as int * 16 + t / 4);
  }

  lemma OctetLow(a: sextet, t: sextet, w: int)
    requires w % 4096 == a as int * 64 + t
    ensures w % 256 == Low(a, t)
  {
    Window1(w);
    DivMod(a as int * 64 + t, 256, a / 4, (a % 4) as int * 64 + t);
  }

  /** The byte that leaves the accumulator after a second, third and fourth sextet. */
  lemma Octets(val: int, a: sextet, t: sextet)
    requires val % 64 == a
    ensures Shift(val, t) / Power(4) % 256 == High(a, t)
    ensures Shift(val, t) / Power(2) % 256 == Middle(a, t)
    ensures Shift(val, t) / Power(0) % 256 == Low(a, t)
  {
    Wrap(val, t);
    OctetHigh(a, t, Shift(val, t));
    OctetMiddle(a, t, Shift(val, t));
    OctetLow(a, t, Shift(val, t));
  }

  lemma FeedStep(s: seq<sextet>, val: int, bits: int)
    requires s != [] && (bits == -8 || bits == -2 || bits == -4 || bits == -6)
    ensures var v := Shift(val, s[0]);
            Feed(s, val, bits) ==
            if bits == -8 then Feed(s[1..], v, -2)
            else [v / Power(bits + 6) % 256] + Feed(s[1..], v, bits - 2)
  {
  }

  lemma FeedTwo(s: seq<sextet>, val: int)
    requires |s| >= 2
    ensures var v := Shift(Shift(val, s[0]), s[1]);
            v % 64 == s[1] && Feed(s, val, -8) == [High(s[0], s[1])] + Feed(s[2..], v, -4)
  {
    var v1 := Shift(val, s[0]);
    Wrap(val, s[0]);
    Wrap(v1, s[1]);
    Octets(v1, s[0], s[1]);
    FeedStep(s, val, -8);
    FeedStep(s[1..], v1, -2);
    assert s[1..][1..] == s[2..];
  }

  lemma FeedThird(s: seq<sextet>, val: int, before: sextet)
    requires s != [] && val % 64 == before
    ensures Shift(val, s[0]) % 64 == s[0]
    ensures Feed(s, val, -4) == [Middle(before, s[0])] + Feed(s[1..], Shift(val, s[0]), -6)
  {
    Wrap(val, s[0]);
    Octets(val, before, s[0]);
    FeedStep(s, val, -4);
  }

  lemma FeedFourth(s: seq<sextet>, val: int, before: sextet)
    requires s != [] && val % 64 == before
    ensures Feed(s, val, -6) == [Low(before, s[0])] + Feed(s[1..], Shift(val, s[0]), -8)
  {
    Octets(val, before, s[0]);
    FeedStep(s, val, -6);
  }

  lemma BytesStep(s: seq<sextet>, rest: seq<byte>)
    requires |s| >= 4 && rest == Bytes(s[4..])
    ensures Bytes(s) == [High(s[0], s[1])] + ([Middle(s[1], s[2])] + ([Low(s[2], s[3])] + rest))
  {
  }

  /** From any accumulator, a group boundary on, the loop computes the reference. */
  lemma {:induction false} FeedIsBytes(s: seq<sextet>, val: int)
    ensures Feed(s, val, -8) == Bytes(s)
    decreases |s|
  {
    if |s| >= 2 {
      var v2 := Shift(Shift(val, s[0]), s[1]);
      FeedTwo(s, val);
      if |s| >= 3 {
        var v3 := Shift(v2, s[2]);
        FeedThird(s[2..], v2, s[1]);
        assert s[2..][1..] == s[3..];
        if |s| >= 4 {
          FeedFourth(s[3..], v3, s[2]);
          assert s[3..][1..] == s[4..];
          FeedIsBytes(s[4..], Shift(v3, s[3]));
          BytesStep(s, Bytes(s[4..]));
        }
      }
    }
  }

  /** On every text, malformed ones included, the overflowing accumulator decodes what the reference does. */
  lemma DecodeIsReference(text: seq<char>)
    ensures Decode(text) == Bytes(Sextets(text))
  {
    DecodeFeeds(text, 0, -8);
    FeedIsBytes(Sextets(text), 0);
  }

  /** Characters outside the alphabet do not change what is decoded, wherever they are. */
  lemma JunkIsIgnored(before: seq<char>, c: char, after: seq<char>)
    requires Value(c) == -1 && c != '='
    ensures Decode(before + [c] + after) == Decode(before + after)
  {
    JunkAddsNoSextet(before, c, after);
    DecodeIsReference(before + [c] + after);
    DecodeIsReference(before + after);
  }

  lemma {:induction false} JunkAddsNoSextet(before: seq<char>, c: char, after: seq<char>)
    requires Value(c) == -1 && c != '='
    ensures Sextets(before + [c] + after) == Sextets(before + after)
  {
    if before == [] {
      assert ([c] + after)[1..] == after;
      assert before + [c] + after == [c] + after && before + after == after;
    } else {
      var s, t := before + [c] + after, before + after;
      assert s[1..] == before[1..] + [c] + after && t[1..] == before[1..] + after;
      assert s[0] == before[0] == t[0];
      JunkAddsNoSextet(before[1..], c, after);
    }
  }

  // ---------------------------------------------------------------- round trip

  /** The four sextets of three bytes. */
  function First(x: byte): sextet { x / 4 }

  function Second(x: byte, y: byte): sextet { x % 4 * 16 + y / 16 }

  function Third(y: byte, z: byte): sextet { y % 16 * 4 + z / 64 }

  function Fourth(z: byte): sextet { z % 64 }

  /** The sextets of one group of bytes; missing bytes count as 0. */
  function Group(b: seq<byte>): seq<sextet>
    requires 1 <= |b| <= 3
  {
    var x, y, z := b[0], At(b, 1), At(b, 2);
    if |b| == 1 then [First(x), Second(x, y)]
    else if |b| == 2 then [First(x), Second(x, y), Third(y, z)]
    else [First(x), Second(x, y), Third(y, z), Fourth(z)]
  }

  lemma WordSextets(x: byte, y: byte, z: byte)
    ensures Word(x, y, z) / 262144 % 64 == First(x)
    ensures Word(x, y, z) / 4096 % 64 == Second(x, y)
    ensures Word(x, y, z) / 64 % 64 == Third(y, z)
    ensures Word(x, y, z) % 64 == Fourth(z)
  {
    var n := Word(x, y, z);
    DivMod(n, 262144, x / 4, (x % 4) as int * 65536 + y as int * 256 + z);
    DivMod(n, 4096, x as int * 16 + y / 16, (y % 16) as int * 256 + z);
    DivMod(x as int * 16 + y / 16, 64, x / 4, x % 4 * 16 + y / 16);
    DivMod(n, 64, x as int * 1024 + y as int * 4 + z / 64, z % 64);
    DivMod(x as int * 1024 + y as int * 4 + z / 64, 64, x as int * 16 + y / 16, y % 16 * 4 + z / 64);
  }

  lemma QuadLetters(b: seq<byte>)
    requires 1 <= |b| <= 3
    ensures var g, q := Group(b), Quad(b);
            && |q| == 4 && |g| == |b| + 1
            && q[0] == Letter(g[0]) && q[1] == Letter(g[1])
            && q[2] == (if |b| > 1 then Letter(g[2]) else '=')
            && q[3] == (if |b| > 2 then Letter(g[3]) else '=')
  {
    WordSextets(At(b, 0), At(b, 1), At(b, 2));
  }

  function Letters(g: seq<sextet>): seq<char> { if g == [] then [] else [Letter(g[0])] + Letters(g[1..]) }

  lemma {:induction false} SextetsOfLetters(g: seq<sextet>, rest: seq<char>)
    ensures Sextets(Letters(g) + rest) == g + Sextets(rest)
  {
    if g == [] {
      assert Letters(g) + rest == rest;
    } else {
      ValueOfLetter(g[0]);
      var text := Letters(g) + rest;
      assert text[0] == Letter(g[0]) && text[1..] == Letters(g[1..]) + rest;
      SextetsOfLetters(g[1..], rest);
    }
  }

  lemma QuadIsGroup(b: seq<byte>)
    requires 1 <= |b| <= 3
    ensures Quad(b) == Letters(Group(b)) + if |b| == 1 then ['=', '='] else if |b| == 2 then ['='] else []
  {
    QuadLetters(b);
    var g := Group(b);
    assert Letters(g) == [Letter(g[0])] + ([Letter(g[1])] + Letters(g[2..])) by { assert g[1..][1..] == g[2..]; }
    if |b| >= 2 { assert Letters(g[2..]) == [Letter(g[2])] + Letters(g[3..]) by { assert g[2..][1..] == g[3..]; } }
    if |b| == 3 { assert Letters(g[3..]) == [Letter(g[3])]; }
  }

  lemma SextetsOfPadded(g: seq<sextet>, pad: seq<char>, rest: seq<char>)
    requires pad == [] || (pad[0] == '=' && rest == [])
    ensures Sextets(Letters(g) + pad + rest) == g + Sextets(rest)
  {
    var tail := pad + rest;
    assert Letters(g) + pad + rest == Letters(g) + tail;
    SextetsOfLetters(g, tail);
    if pad == [] {
      assert tail == rest;
    } else {
      assert tail[0] == '=';
    }
  }

  lemma SextetsOfQuad(b: seq<byte>, rest: seq<char>)
    requires 1 <= |b| <= 3 && (|b| < 3 ==> rest == [])
    ensures Sextets(Quad(b) + rest) == Group(b) + Sextets(rest)
  {
    QuadIsGroup(b);
    SextetsOfPadded(Group(b), if |b| == 1 then ['=', '='] else if |b| == 2 then ['='] else [], rest);
  }

  lemma RejoinHigh(x: byte, y: byte)
    ensures High(First(x), Second(x, y)) == x
  {
    DivMod(x % 4 * 16 + y / 16, 16, x % 4, y / 16);
  }

  lemma RejoinMiddle(x: byte, y: byte, z: byte)
    ensures Middle(Second(x, y), Third(y, z)) == y
  {
    DivMod(x % 4 * 16 + y / 16, 16, x % 4, y / 16);
    DivMod(y % 16 * 4 + z / 64, 4, y % 16, z / 64);
  }

  lemma RejoinLow(y: byte, z: byte)
    ensures Low(Third(y, z), Fourth(z)) == z
  {
    DivMod(y % 16 * 4 + z / 64, 4, y % 16, z / 64);
  }

  lemma BytesOfOne(x: byte)
    ensures Bytes([First(x), Second(x, 0)]) == [x]
  {
    RejoinHigh(x, 0);
  }

  lemma BytesOfTwo(x: byte, y: byte)
    ensures Bytes([First(x), Second(x, y), Third(y, 0)]) == [x, y]
  {
    RejoinHigh(x, y);
    RejoinMiddle(x, y, 0);
  }

  lemma BytesOfFour(a: sextet, b: sextet, c: sextet, d: sextet, more: seq<sextet>)
    ensures Bytes([a, b, c, d] + more) == [High(a, b), Middle(b, c), Low(c, d)] + Bytes(more)
  {
    assert ([a, b, c, d] + more)[4..] == more;
  }

  lemma BytesOfThree(x: byte, y: byte, z: byte, more: seq<sextet>)
    ensures Bytes([First(x), Second(x, y), Third(y, z), Fourth(z)] + more) == [x, y, z] + Bytes(more)
  {
    BytesOfFour(First(x), Second(x, y), Third(y, z), Fourth(z), more);
    RejoinHigh(x, y);
    RejoinMiddle(x, y, z);
    RejoinLow(y, z);
  }

  lemma BytesOfGroup(b: seq<byte>, more: seq<sextet>)
    requires 1 <= |b| <= 3 && (|b| < 3 ==> more == [])
    ensures Bytes(Group(b) + more) == b + Bytes(more)
  {
    if |b| == 3 {
      assert b == [b[0], b[1], b[2]];
      BytesOfThree(b[0], b[1], b[2], more);
    } else {
      EmptySides(Group(b));
      EmptySides(b);
      if |b| == 2 {
        assert b == [b[0], b[1]];
        BytesOfTwo(b[0], b[1]);
      } else {
        assert b == [b[0]];
        BytesOfOne(b[0]);
      }
    }
  }

  /** Every byte string survives encoding and decoding. */
  lemma RoundTrip(data: seq<byte>)
    ensures Decode(Encode(data)) == data
  {
    ReferenceRoundTrip(data);
    DecodeIsReference(Encode(data));
  }

  lemma {:induction false} ReferenceRoundTrip(data: seq<byte>)
    ensures Bytes(Sextets(Encode(data))) == data
  {
    if data != [] {
      var k := if |data| < 3 then |data| else 3;
      SextetsOfQuad(data[..k], Encode(data[k..]));
      BytesOfGroup(data[..k], Sextets(Encode(data[k..])));
      ReferenceRoundTrip(data[k..]);
      assert data == data[..k] + data[k..];
    }
  }
}
