/** The base64url text against RFC 4648: the alphabet of its section 5, the bits of its section 4,
    and exactly which texts decode to which bytes. */
module Base64Standard {
  import opened Base
  import opened Base64Url

  const ALPHABET: string := "ABCDEFGHIJKLMNOPQRSTUVWXYZ" + "abcdefghijklmnopqrstuvwxyz" + "0123456789" + "-_"

  // ------------------------------------------------------------------------- alphabet

  /** The digits are the alphabet of the standard, in its order. */
  lemma DigitTable(i: nat)
    requires i < 64
    ensures |ALPHABET| == 64 && Digit(i) == ALPHABET[i] as int && PAD == '=' as int
  {
  }

  /** The digits' values are their positions, and no other byte has one. */
  lemma ValueTable(b: byte)
    ensures IsDigit(b) <==> exists i :: 0 <= i < |ALPHABET| && ALPHABET[i] as int == b
    ensures IsDigit(b) ==> ALPHABET[Value(b)] as int == b
  {
    if IsDigit(b) {
      DigitTable(Value(b));
      assert Digit(Value(b)) == b;
    }
    if i :| 0 <= i < |ALPHABET| && ALPHABET[i] as int == b {
      DigitTable(i);
      DigitValue(i);
    }
  }

  // ----------------------------------------------------------------------------- bits

  /** The number that `n` digits from `o` on spell. */
  function Number(e: Bytes, o: nat, n: nat): nat
    requires o + n <= |e|
  {
    if n == 0 then 0 else Number(e, o, n - 1) * 64 + Value(e[o + n - 1])
  }

  predicate AllDigits(e: Bytes, o: nat, n: nat)
    requires o + n <= |e|
  {
    forall i :: o <= i < o + n ==> IsDigit(e[i])
  }

  /** Padding from `o` to the end: as much as the group lacks, none in raw mode. */
  predicate PaddedFrom(raw: bool, e: Bytes, o: nat, n: nat) {
    |e| == o + (if raw then 0 else n) && forall i :: o <= i < |e| ==> e[i] == '=' as int
  }

  /** The bytes of `s` from `j` on, up to three, and the digits of `e` from `o` on: three bytes are
      four digits that spell the same 24-bit number; a last group of two bytes or one is three
      digits or two, filled up with zero bits, and then padding. */
  predicate SameBits(raw: bool, s: Bytes, j: nat, e: Bytes, o: nat)
    requires j < |s|
  {
    var n := |s| - j;
    if n >= 3 then
      && o + 4 <= |e| && AllDigits(e, o, 4)
      && Number(e, o, 4) == s[j] as int * 65536 + s[j + 1] as int * 256 + s[j + 2]
    else if n == 2 then
      && o + 3 <= |e| && AllDigits(e, o, 3) && PaddedFrom(raw, e, o + 3, 1)
      && Number(e, o, 3) == (s[j] as int * 256 + s[j + 1]) * 4
    else
      && o + 2 <= |e| && AllDigits(e, o, 2) && PaddedFrom(raw, e, o + 2, 2)
      && Number(e, o, 2) == s[j] as int * 16
  }

  /** Every group of three bytes, and the last one, carries the same bits as its digits. */
  lemma {:induction false} EncodeBits(raw: bool, s: Bytes, g: nat)
    requires 3 * g < |s|
    ensures SameBits(raw, s, 3 * g, Encode(raw, s), 4 * g)
    decreases g
  {
    if g > 0 {
      EncodeBits(raw, s[3..], g - 1);
      EncodeTail(raw, s);
      ShiftBits(raw, s, 3 * g, Encode(raw, s), 4 * g);
    } else {
      FirstGroup(raw, s);
    }
  }

  lemma EncodeTail(raw: bool, s: Bytes)
    requires |s| >= 3
    ensures |Encode(raw, s)| >= 4 && Encode(raw, s)[4..] == Encode(raw, s[3..])
  {
  }

  lemma ShiftBits(raw: bool, s: Bytes, j: nat, e: Bytes, o: nat)
    requires 3 <= j < |s| && 4 <= o && 4 <= |e| && SameBits(raw, s[3..], j - 3, e[4..], o - 4)
    ensures SameBits(raw, s, j, e, o)
  {
    ShiftNumber(e, o, if |s| - j >= 3 then 4 else if |s| - j == 2 then 3 else 2);
    assert forall i :: 4 <= i < |e| ==> e[i] == e[4..][i - 4];
  }

  lemma {:induction false} ShiftNumber(e: Bytes, o: nat, n: nat)
    requires 4 <= o && o + n <= |e|
    ensures Number(e, o, n) == Number(e[4..], o - 4, n)
  {
    if n > 0 { ShiftNumber(e, o, n - 1); }
  }

  lemma NumberOf(e: Bytes)
    requires |e| >= 2
    ensures Number(e, 0, 2) == Value(e[0]) * 64 + Value(e[1])
    ensures |e| >= 3 ==> Number(e, 0, 3) == (Value(e[0]) * 64 + Value(e[1])) * 64 + Value(e[2])
    ensures |e| >= 4 ==> Number(e, 0, 4) == ((Value(e[0]) * 64 + Value(e[1])) * 64 + Value(e[2])) * 64 + Value(e[3])
  {
    assert Number(e, 0, 1) == Value(e[0]);
    if |e| >= 4 { assert Number(e, 0, 4) == Number(e, 0, 3) * 64 + Value(e[3]); }
  }

  lemma FirstGroup(raw: bool, s: Bytes)
    requires s != []
    ensures SameBits(raw, s, 0, Encode(raw, s), 0)
  {
    var e := Encode(raw, s);
    NumberOf(e);
    DigitValue(s[0] / 4);
    if |s| == 1 {
      DigitValue(s[0] % 4 * 16);
    } else {
      DigitValue(s[0] % 4 * 16 + s[1] / 16);
      if |s| == 2 {
        DigitValue(s[1] % 16 * 4);
      } else {
        DigitValue(s[1] % 16 * 4 + s[2] / 64);
        DigitValue(s[2] % 64);
      }
    }
  }

  // -------------------------------------------------------------- what decodes to what

  /** The position of the digit with unused bits, if the last group is not full, and the weight
      of its lowest used bit. */
  function Loose(b: Bytes): int {
    if |b| % 3 == 0 then -1 else |b| / 3 * 4 + |b| % 3
  }

  function Weight(b: Bytes): nat {
    if |b| % 3 == 1 then 16 else 4
  }

  predicate SameUpTo(x: byte, y: byte, weight: nat)
    requires weight >= 1
  {
    IsDigit(x) && Value(x) / weight == Value(y) / weight
  }

  /** `t` is the encoding of `b`, up to unused bits. */
  ghost predicate Spells(raw: bool, t: Bytes, b: Bytes) {
    var e := Encode(raw, b);
    |t| == |e| && forall i :: 0 <= i < |t| ==> SpelledAt(t, e, b, i)
  }

  lemma DigitOfValue(d: byte)
    requires IsDigit(d)
    ensures Digit(Value(d)) == d
  {
  }

  /** Four digits and the three bytes they join to determine each other. */
  lemma JoinFour(a: byte, b: byte, c: byte, d: byte, x: byte, y: byte, z: byte)
    requires IsDigit(a) && IsDigit(b) && IsDigit(c) && IsDigit(d)
    ensures Join4(a, b, c, d) == [x, y, z] <==>
      a == Digit(x / 4) && b == Digit(x % 4 * 16 + y / 16) && c == Digit(y % 16 * 4 + z / 64) && d == Digit(z % 64)
  {
    if Join4(a, b, c, d) == [x, y, z] {
      assert Join4(a, b, c, d)[0] == x && Join4(a, b, c, d)[1] == y && Join4(a, b, c, d)[2] == z;
      DigitOfValue(a);
      DigitOfValue(b);
      DigitOfValue(c);
      DigitOfValue(d);
      Nibbles(Value(a), Value(b) / 16);
      Split(Value(a), Value(b), x, 4, 16);
      Split(Value(b) % 16, Value(c), y, 16, 4);
      Split(Value(c) % 4, Value(d), z, 64, 1);
    } else {
      QuantumOfThree(x, y, z);
    }
  }

  lemma Split(p: nat, q: nat, x: nat, m: nat, w: nat)
    requires m in {4, 16, 64} && w in {1, 4, 16} && m * w == 64 && q < 64 && x == p * m + q / w
    ensures x / m == p && x % m == q / w
  {
  }

  lemma JoinThree(a: byte, b: byte, c: byte, x: byte, y: byte)
    requires IsDigit(a) && IsDigit(b) && IsDigit(c)
    ensures Join3(a, b, c) == [x, y] <==>
      a == Digit(x / 4) && b == Digit(x % 4 * 16 + y / 16) && SameUpTo(c, Digit(y % 16 * 4), 4)
  {
    DigitOfValue(a);
    DigitOfValue(b);
    DigitValue(y % 16 * 4);
    DigitValue(x % 4 * 16 + y / 16);
    DigitValue(x / 4);
    assert Join3(a, b, c) == [Value(a) * 4 + Value(b) / 16, Value(b) % 16 * 16 + Value(c) / 4];
    Split(Value(a), Value(b), Value(a) * 4 + Value(b) / 16, 4, 16);
    Split(Value(b) % 16, Value(c), Value(b) % 16 * 16 + Value(c) / 4, 16, 4);
    Nibbles(x % 4, y / 16);
  }

  lemma JoinTwo(a: byte, b: byte, x: byte)
    requires IsDigit(a) && IsDigit(b)
    ensures Join2(a, b) == [x] <==> a == Digit(x / 4) && SameUpTo(b, Digit(x % 4 * 16), 16)
  {
    DigitOfValue(a);
    DigitValue(x / 4);
    DigitValue(x % 4 * 16);
    Split(Value(a), Value(b), Value(a) * 4 + Value(b) / 16, 4, 16);
  }

  /** What spelling says about one digit. */
  predicate SpelledAt(t: Bytes, e: Bytes, b: Bytes, i: nat)
    requires i < |t| == |e|
  {
    if i == Loose(b) then SameUpTo(t[i], e[i], Weight(b)) else t[i] == e[i]
  }

  lemma LooseShift(b: Bytes)
    requires |b| >= 3
    ensures Loose(b) == (if Loose(b[3..]) == -1 then -1 else Loose(b[3..]) + 4) && (Loose(b) == -1 || Loose(b) >= 4)
    ensures Weight(b) == Weight(b[3..])
  {
    Thirds(|b[3..]|);
  }

  lemma Thirds(n: nat)
    ensures (n + 3) / 3 == n / 3 + 1 && (n + 3) % 3 == n % 3
  {
  }

  /** Spelling a full first group and the rest. */
  lemma SpellsCons(raw: bool, t: Bytes, b: Bytes)
    requires |b| >= 3
    ensures var e := Encode(raw, b);
      Spells(raw, t, b) <==> |t| >= 4 && t[..4] == e[..4] && Spells(raw, t[4..], b[3..])
  {
    var e := Encode(raw, b);
    assert e[4..] == Encode(raw, b[3..]);
    LooseShift(b);
    SpellsSplit(t, e, b);
  }

  lemma SpellsSplit(t: Bytes, e: Bytes, b: Bytes)
    requires |b| >= 3 && |e| >= 4
    requires Loose(b) == (if Loose(b[3..]) == -1 then -1 else Loose(b[3..]) + 4) && (Loose(b) == -1 || Loose(b) >= 4)
    requires Weight(b) == Weight(b[3..])
    ensures (|t| == |e| && forall i :: 0 <= i < |t| ==> SpelledAt(t, e, b, i)) <==>
      && |t| >= 4 && t[..4] == e[..4] && |t[4..]| == |e[4..]|
      && forall i :: 0 <= i < |t[4..]| ==> SpelledAt(t[4..], e[4..], b[3..], i)
  {
    if |t| == |e| {
      if forall i :: 0 <= i < |t| ==> SpelledAt(t, e, b, i) {
        forall i | 0 <= i < 4 ensures t[i] == e[i] { assert SpelledAt(t, e, b, i); }
        forall i | 0 <= i < |t[4..]| ensures SpelledAt(t[4..], e[4..], b[3..], i) { assert SpelledAt(t, e, b, i + 4); }
      }
      if t[..4] == e[..4] && forall i :: 0 <= i < |t[4..]| ==> SpelledAt(t[4..], e[4..], b[3..], i) {
        forall i | 0 <= i < |t| ensures SpelledAt(t, e, b, i) {
          if i >= 4 { assert SpelledAt(t[4..], e[4..], b[3..], i - 4); } else { assert t[i] == t[..4][i] == e[..4][i]; }
        }
      }
    }
  }

  lemma {:induction false} QuantaExactly(raw: bool, t: Bytes, b: Bytes)
    ensures DecodeQuanta(raw, t) == Ok(b) <==> Spells(raw, t, b)
    decreases |t|
  {
    if |b| >= 3 {
      SpellsCons(raw, t, b);
      if |t| >= 4 && IsDigit(t[0]) && IsDigit(t[1]) && IsDigit(t[2]) && IsDigit(t[3]) {
        FullExactly(raw, t, b);
      } else {
        ShortExactly(raw, t, b);
      }
    } else {
      LastExactly(raw, t, b);
    }
  }

  lemma FullExactly(raw: bool, t: Bytes, b: Bytes)
    requires |b| >= 3 && |t| >= 4 && IsDigit(t[0]) && IsDigit(t[1]) && IsDigit(t[2]) && IsDigit(t[3])
    ensures DecodeQuanta(raw, t) == Ok(b) <==> Spells(raw, t, b)
    decreases |t|, 0
  {
    SpellsCons(raw, t, b);
    QuantaExactly(raw, t[4..], b[3..]);
    JoinFour(t[0], t[1], t[2], t[3], b[0], b[1], b[2]);
    var rest := DecodeQuanta(raw, t[4..]);
    assert b == [b[0], b[1], b[2]] + b[3..];
    if rest.Ok? && Join4(t[0], t[1], t[2], t[3]) + rest.value == b {
      assert rest.value == b[3..];
      assert Join4(t[0], t[1], t[2], t[3]) == b[..3] == [b[0], b[1], b[2]];
    }
    assert Encode(raw, b)[..4] == [Encode(raw, b)[0], Encode(raw, b)[1], Encode(raw, b)[2], Encode(raw, b)[3]];
    assert t[..4] == [t[0], t[1], t[2], t[3]];
  }

  /** Nothing else decodes to three bytes or more. */
  lemma ShortExactly(raw: bool, t: Bytes, b: Bytes)
    requires |b| >= 3 && !(|t| >= 4 && IsDigit(t[0]) && IsDigit(t[1]) && IsDigit(t[2]) && IsDigit(t[3]))
    ensures DecodeQuanta(raw, t) != Ok(b) && !Spells(raw, t, b)
  {
    FirstGroup(raw, b);
    SpellsCons(raw, t, b);
    var e := Encode(raw, b);
    assert e[..4][0] == e[0] && e[..4][1] == e[1] && e[..4][2] == e[2] && e[..4][3] == e[3];
    assert |t| >= 4 ==> t[..4][0] == t[0] && t[..4][1] == t[1] && t[..4][2] == t[2] && t[..4][3] == t[3];
  }

  /** Spelling a last group. */
  lemma SpellsLast(raw: bool, t: Bytes, b: Bytes)
    requires |b| < 3
    ensures var e := Encode(raw, b);
      Spells(raw, t, b) <==>
        (&& |t| == |e| <= 4
         && (|e| > 0 ==> SpelledAt(t, e, b, 0)) && (|e| > 1 ==> SpelledAt(t, e, b, 1))
         && (|e| > 2 ==> SpelledAt(t, e, b, 2)) && (|e| > 3 ==> SpelledAt(t, e, b, 3)))
  {
  }

  lemma LastExactly(raw: bool, t: Bytes, b: Bytes)
    requires |b| < 3
    ensures DecodeQuanta(raw, t) == Ok(b) <==> Spells(raw, t, b)
  {
    SpellsLast(raw, t, b);
    if |b| == 1 {
      assert b == [b[0]];
      LastOne(raw, t, b[0]);
    } else if |b| == 2 {
      assert b == [b[0], b[1]];
      LastTwo(raw, t, b[0], b[1]);
    }
  }

  lemma LastOne(raw: bool, t: Bytes, x: byte)
    ensures DecodeQuanta(raw, t) == Ok([x]) <==> Spells(raw, t, [x])
  {
    SpellsLast(raw, t, [x]);
    FirstGroup(raw, [x]);
    if |t| >= 2 && IsDigit(t[0]) && IsDigit(t[1]) { JoinTwo(t[0], t[1], x); }
  }

  lemma LastTwo(raw: bool, t: Bytes, x: byte, y: byte)
    ensures DecodeQuanta(raw, t) == Ok([x, y]) <==> Spells(raw, t, [x, y])
  {
    SpellsLast(raw, t, [x, y]);
    FirstGroup(raw, [x, y]);
    assert Loose([x, y]) == 2 && Weight([x, y]) == 4;
    if |t| >= 3 && IsDigit(t[0]) && IsDigit(t[1]) && IsDigit(t[2]) { JoinThree(t[0], t[1], t[2], x, y); }
  }

  /** A text decodes to `b` if and only if, without its line breaks, it is the encoding of `b` up
      to the unused bits of the last digit: padding must be there, and exact. */
  lemma DecodesExactly(raw: bool, s: Bytes, b: Bytes)
    ensures Decode(raw, s) == Ok(b) <==> Spells(raw, SkipNewlines(s), b)
  {
    QuantaExactly(raw, SkipNewlines(s), b);
  }

  /** Four characters of a text and what is left of it. */
  lemma DecodeWord(w: string, rest: string, b: Bytes, tail: Bytes)
    requires |w| == 4 && forall i :: 0 <= i < 4 ==> w[i] as int < 128 && IsDigit(w[i] as int)
    requires forall i :: 0 <= i < |rest| ==> rest[i] as int < 128
    requires Join4(w[0] as int, w[1] as int, w[2] as int, w[3] as int) == b
    requires DecodeQuanta(false, Ascii(rest)) == Ok(tail)
    ensures (forall i :: 0 <= i < |w + rest| ==> (w + rest)[i] as int < 128)
    ensures DecodeQuanta(false, Ascii(w + rest)) == Ok(b + tail)
  {
    assert Ascii(w) == [w[0] as int, w[1] as int, w[2] as int, w[3] as int];
    assert Ascii(w + rest) == Ascii(w) + Ascii(rest);
    DecodeFour(false, w[0] as int, w[1] as int, w[2] as int, w[3] as int, Ascii(rest));
  }

  lemma LastWord()
    ensures DecodeQuanta(false, Ascii("Ig==")) == Ok([34])
  {
    assert Ascii("Ig==") == [73, 103, 61, 61];
  }

  /** The ciphertext name that the source gives as its example is one block of 16 bytes. */
  lemma ExampleName() returns (name: string, block: Bytes)
    ensures name == "i1bp" + ("TaVL" + ("Zq7s" + ("RNA9" + ("mL_2" + "Ig=="))))
    ensures block == [139, 86, 233] + ([77, 165, 75] + ([102, 174, 236] + ([68, 208, 61] + ([152, 191, 246] + [34]))))
    ensures (forall i :: 0 <= i < |name| ==> name[i] as int < 128) && |block| == 16
    ensures DecodeQuanta(false, Ascii(name)) == Ok(block)
  {
    name, block := ExampleTail();
    name, block := PutWord("Zq7s", name, [102, 174, 236], block);
    name, block := PutWord("TaVL", name, [77, 165, 75], block);
    name, block := PutWord("i1bp", name, [139, 86, 233], block);
  }

  lemma ExampleTail() returns (name: string, block: Bytes)
    ensures name == "RNA9" + ("mL_2" + "Ig==") && block == [68, 208, 61] + ([152, 191, 246] + [34]) && |block| == 7
    ensures (forall i :: 0 <= i < |name| ==> name[i] as int < 128)
    ensures DecodeQuanta(false, Ascii(name)) == Ok(block)
  {
    LastWord();
    name, block := PutWord("mL_2", "Ig==", [152, 191, 246], [34]);
    name, block := PutWord("RNA9", name, [68, 208, 61], block);
  }

  lemma PutWord(w: string, rest: string, b: Bytes, tail: Bytes) returns (name: string, block: Bytes)
    requires |w| == 4 && forall i :: 0 <= i < 4 ==> w[i] as int < 128 && IsDigit(w[i] as int)
    requires forall i :: 0 <= i < |rest| ==> rest[i] as int < 128
    requires Join4(w[0] as int, w[1] as int, w[2] as int, w[3] as int) == b
    requires DecodeQuanta(false, Ascii(rest)) == Ok(tail)
    ensures name == w + rest && block == b + tail && |block| == |b| + |tail|
    ensures (forall i :: 0 <= i < |name| ==> name[i] as int < 128)
    ensures DecodeQuanta(false, Ascii(name)) == Ok(block)
  {
    DecodeWord(w, rest, b, tail);
    name, block := w + rest, b + tail;
  }

  /** Line breaks do not count, wherever they are. */
  lemma {:induction false} LineBreaksIgnored(raw: bool, a: Bytes, c: byte, b: Bytes)
    requires c == '\n' as int || c == '\r' as int
    ensures Decode(raw, a + [c] + b) == Decode(raw, a + b)
  {
    SkipAppend(a + [c], b);
    SkipAppend(a, [c]);
    SkipAppend(a, b);
    assert SkipNewlines([c]) == [] by { assert [c][1..] == []; }
    assert SkipNewlines(a) + [] == SkipNewlines(a);
  }

  lemma {:induction false} SkipAppend(a: Bytes, b: Bytes)
    ensures SkipNewlines(a + b) == SkipNewlines(a) + SkipNewlines(b)
  {
    if a == [] {
      assert a + b == b;
    } else {
      SkipAppend(a[1..], b);
      assert (a + b)[1..] == a[1..] + b;
    }
  }
}
