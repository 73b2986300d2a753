/** ASCII85 streams of a PDF (section 7.4.3 of ISO 32000-1), decoded into a bounded buffer. */
module Ascii85 {
  import opened Outcomes
  import opened PngFilters

  datatype Fault = TooLarge | NotAscii85

  type Result = Outcome<seq<Byte>, Fault>

  const Z: Byte := 122
  const LESS: Byte := 60
  const GREATER: Byte := 62
  const TILDE: Byte := 126
  const TWO_32 := 0x1_0000_0000

  // ---------- what is decoded: no white space, no markers ----------

  predicate IsSpace(c: Byte) { 9 <= c <= 13 || c == 32 || c == 160 }

  function WithoutSpace(data: seq<Byte>): seq<Byte> {
    if data == [] then []
    else (if IsSpace(data[0]) then [] else [data[0]]) + WithoutSpace(data[1..])
  }

  function WithoutPrefix(text: seq<Byte>): seq<Byte> {
    if |text| >= 2 && text[0] == LESS && text[1] == TILDE then text[2..] else text
  }

  /** Everything before the first end marker. */
  function UpToEnd(text: seq<Byte>): seq<Byte> {
    if text == [] || (|text| >= 2 && text[0] == TILDE && text[1] == GREATER) then []
    else [text[0]] + UpToEnd(text[1..])
  }

  function Body(data: seq<Byte>): seq<Byte> { UpToEnd(WithoutPrefix(WithoutSpace(data))) }

  // ---------- groups ----------

  function DigitOf(c: Byte): int {
    var code: int := c;
    code - 33
  }

  function Value(digits: seq<int>): int {
    if digits == [] then 0 else Value(digits[..|digits| - 1]) * 85 + digits[|digits| - 1]
  }

  /** The k-th byte of a 32-bit word, most significant first, of a number cut to 32 bits. */
  function ByteOf(value: int, k: nat): Byte
    requires k < 4
  {
    var word := value % TWO_32;
    (if k == 0 then word / 0x100_0000 else if k == 1 then word / 0x1_0000
     else if k == 2 then word / 0x100 else word) % 256
  }

  function WordBytes(value: int): (b: seq<Byte>)
    ensures |b| == 4
  {
    [ByteOf(value, 0), ByteOf(value, 1), ByteOf(value, 2), ByteOf(value, 3)]
  }

  function Padded(group: seq<int>): (digits: seq<int>)
    requires |group| <= 5
    ensures |digits| == 5
    decreases 5 - |group|
  {
    if |group| == 5 then group else Padded(group + [84])
  }

  function FlushBytes(group: seq<int>): seq<Byte>
    requires |group| <= 5
  {
    if group == [] then [] else WordBytes(Value(Padded(group)))[..if |group| == 5 then 4 else |group| - 1]
  }

  /** What the rest of the body decodes to, with a group begun and room for so many more bytes. */
  function Decode(body: seq<Byte>, group: seq<int>, room: int): Result
    requires |group| < 5
    decreases |body|, 0
  {
    if body == [] then
      var tail := FlushBytes(group);
      if |tail| > room then Raise(TooLarge) else Ok(tail)
    else if body[0] == Z && group == [] then Then([0, 0, 0, 0], body[1..], room)
    else if DigitOf(body[0]) < 0 || DigitOf(body[0]) > 84 then Raise(NotAscii85)
    else
      var next := group + [DigitOf(body[0])];
      if |next| == 5 then Then(WordBytes(Value(next)), body[1..], room) else Decode(body[1..], next, room)
  }

  /** Put out some bytes, if there is room, and go on. */
  function Then(bytes: seq<Byte>, body: seq<Byte>, room: int): Result
    decreases |body|, 1
  {
    if |bytes| > room then Raise(TooLarge)
    else
      var rest :- Decode(body, [], room - |bytes|);
      Ok(bytes + rest)
  }

  // ---------- the decoder ----------

  function Prefixed(bytes: seq<Byte>, r: Result): Result {
    if r.Ok? then Ok(bytes + r.value) else r
  }

  lemma PrefixedNothing(r: Result)
    ensures Prefixed([], r) == r
  {
    assert r.Ok? ==> [] + r.value == r.value;
  }

  /** Put bytes one by one behind the first `length`; stop at the first that finds no room. */
  method PutAll(out: array<Byte>, length: nat, bytes: seq<Byte>) returns (fits: bool, next: nat)
    requires length <= out.Length
    modifies out
    ensures fits <==> length + |bytes| <= out.Length
    ensures fits ==> next == length + |bytes| && out[..next] == old(out[..length]) + bytes
  {
    next := length;
    for k := 0 to |bytes|
      invariant next == length + k <= out.Length && out[..next] == old(out[..length]) + bytes[..k]
    {
      if next >= out.Length {
        return false, next;
      }
      out[next] := bytes[k];
      next := next + 1;
    }
    return true, next;
  }

  /** One put: the bytes join what is already out, and the rest of the body follows. */
  lemma PutStep(done: seq<Byte>, bytes: seq<Byte>, body: seq<Byte>, limit: int)
    ensures var put := Prefixed(done, Then(bytes, body, limit - |done|));
            put == if limit < |done| + |bytes| then Raise(TooLarge)
                   else Prefixed(done + bytes, Decode(body, [], limit - |done + bytes|))
  {
    hide Decode;
    var r := Decode(body, [], limit - |done + bytes|);
    assert r.Ok? ==> done + (bytes + r.value) == done + bytes + r.value;
  }

  /** One character of the body that is part of a group. */
  lemma DigitStep(body: seq<Byte>, i: nat, group: seq<int>, room: int)
    requires i < |body| && |group| < 5 && !(body[i] == Z && group == [])
    ensures var next := group + [DigitOf(body[i])];
            Decode(body[i..], group, room) ==
              if DigitOf(body[i]) < 0 || DigitOf(body[i]) > 84 then Raise(NotAscii85)
              else if |next| == 5 then Then(WordBytes(Value(next)), body[i + 1..], room)
              else Decode(body[i + 1..], next, room)
  {
    hide Then, WordBytes, Value;
    assert body[i..][1..] == body[i + 1..];
  }

  lemma ZStep(body: seq<Byte>, i: nat, room: int)
    requires i < |body| && body[i] == Z
    ensures Decode(body[i..], [], room) == Then([0, 0, 0, 0], body[i + 1..], room)
  {
    hide Then;
    assert body[i..][1..] == body[i + 1..];
  }

  /** The decoded bytes, or the fault met first; the buffer never holds more than the limit. */
  method DecodeStream(data: seq<Byte>, limit: nat) returns (r: Result)
    ensures r == Decode(Body(data), [], limit)
    ensures r.Ok? ==> |r.value| <= limit
  {
    hide Decode, Then, Body, WordBytes, Value;
    var body := Body(data);
    var size := if limit < |body| * 4 then limit else |body| * 4;
    var out := new Byte[size];
    var length := 0;
    var group: seq<int> := [];
    ghost var goal := Decode(body, [], limit);
    assert out[..0] == [] && body[0..] == body;
    PrefixedNothing(goal);
    for i := 0 to |body|
      invariant |group| < 5 && 0 <= length <= out.Length && length <= 4 * (i - |group|)
      invariant goal == Prefixed(out[..length], Decode(body[i..], group, limit - length))
    {
      ghost var done := out[..length];
      if body[i] == Z && group == [] {
        ZStep(body, i, limit - length);
        PutStep(done, [0, 0, 0, 0], body[i + 1..], limit);
        var fits, next := PutAll(out, length, [0, 0, 0, 0]);
        if !fits {
          return Raise(TooLarge);
        }
        length := next;
        continue;
      }
      DigitStep(body, i, group, limit - length);
      if DigitOf(body[i]) < 0 || DigitOf(body[i]) > 84 {
        return Raise(NotAscii85);
      }
      group := group + [DigitOf(body[i])];
      if |group| == 5 {
        PutStep(done, WordBytes(Value(group)), body[i + 1..], limit);
        var fits, next := PutAll(out, length, WordBytes(Value(group)));
        if !fits {
          return Raise(TooLarge);
        }
        length := next;
        group := [];
      }
    }
    EndStep(out[..length], body[|body|..], group, limit);
    if group != [] {
      var fits, next := PutAll(out, length, FlushBytes(group));
      if !fits {
        return Raise(TooLarge);
      }
      length := next;
    }
    return Ok(out[..length]);
  }

  lemma EndStep(done: seq<Byte>, body: seq<Byte>, group: seq<int>, limit: nat)
    requires body == [] && |group| < 5 && |done| <= limit
    ensures |FlushBytes(group)| <= if |group| == 0 then 0 else |group| - 1
    ensures group == [] ==> done + FlushBytes(group) == done
    ensures Prefixed(done, Decode(body, group, limit - |done|))
         == if |done| + |FlushBytes(group)| > limit then Raise(TooLarge) else Ok(done + FlushBytes(group))
  {
  }

  // ---------- the standard's encoding ----------

  function Word(b: seq<Byte>): int
    requires |b| == 4
  {
    var w: int, x: int, y: int, z: int := b[0], b[1], b[2], b[3];
    w * 0x100_0000 + x * 0x1_0000 + y * 0x100 + z
  }

  function Digits(v: int): (d: seq<int>)
    ensures |d| == 5
  {
    [v / 52200625, v / 614125 % 85, v / 7225 % 85, v / 85 % 85, v % 85]
  }

  predicate AreDigits(digits: seq<int>) { forall i | 0 <= i < |digits| :: 0 <= digits[i] < 85 }

  function CharOf(digit: int): Byte
    requires 0 <= digit < 85
  {
    digit + 33
  }

  function Chars(digits: seq<int>): (s: seq<Byte>)
    requires AreDigits(digits)
    ensures |s| == |digits|
  {
    seq(|digits|, i requires 0 <= i < |digits| => CharOf(digits[i]))
  }

  function ZeroFilled(b: seq<Byte>): (w: seq<Byte>)
    requires |b| <= 4
    ensures |w| == 4
    decreases 4 - |b|
  {
    if |b| == 4 then b else ZeroFilled(b + [0 as Byte])
  }

  lemma WordRange(b: seq<Byte>)
    requires |b| == 4
    ensures 0 <= Word(b) < TWO_32
  {
  }

  lemma DigitsRange(v: int)
    requires 0 <= v < TWO_32
    ensures AreDigits(Digits(v))
  {
  }

  /** Four bytes make five characters, four zero bytes make a single z, a last n bytes make n + 1 characters. */
  function Encoded(b: seq<Byte>): seq<Byte> {
    if b == [] then []
    else
      var n := if |b| < 4 then |b| else 4;
      var v := Word(ZeroFilled(b[..n]));
      WordRange(ZeroFilled(b[..n]));
      DigitsRange(v);
      (if n == 4 && v == 0 then [Z] else Chars(Digits(v)[..n + 1])) + Encoded(b[n..])
  }

  // ---------- decoding undoes encoding ----------

  lemma {:induction false} ReadDigits(digits: seq<int>, group: seq<int>, rest: seq<Byte>, room: int)
    requires AreDigits(digits) && |group| + |digits| < 5
    ensures Decode(Chars(digits) + rest, group, room) == Decode(rest, group + digits, room)
    decreases |digits|
  {
    if digits == [] {
      assert Chars(digits) + rest == rest && group + digits == group;
    } else {
      var text := Chars(digits) + rest;
      assert text[1..] == Chars(digits[1..]) + rest;
      ReadDigits(digits[1..], group + [digits[0]], rest, room);
      assert group + [digits[0]] + digits[1..] == group + digits;
      assert text[0] == CharOf(digits[0]);
    }
  }

  lemma ReadWord(digits: seq<int>, rest: seq<Byte>, room: int)
    requires AreDigits(digits) && |digits| == 5
    ensures Decode(Chars(digits) + rest, [], room) == Then(WordBytes(Value(digits)), rest, room)
  {
    hide Then, WordBytes, Value;
    var last := Chars(digits[4..]) + rest;
    assert Chars(digits) + rest == Chars(digits[..4]) + last;
    ReadDigits(digits[..4], [], last, room);
    assert [] + digits[..4] == digits[..4] && digits[..4] + [digits[4]] == digits;
    assert last[0] == CharOf(digits[4]) && last[1..] == rest;
  }

  lemma ValueOfFive(digits: seq<int>)
    requires |digits| == 5
    ensures Value(digits)
         == digits[0] * 52200625 + digits[1] * 614125 + digits[2] * 7225 + digits[3] * 85 + digits[4]
  {
    assert digits[..1][..0] == [] && digits[..2][..1] == digits[..1] && digits[..3][..2] == digits[..2];
    assert Value(digits[..1]) == digits[0];
    assert Value(digits[..2]) == digits[0] * 85 + digits[1];
    assert digits[..4][..3] == digits[..3];
    assert Value(digits[..3]) == Value(digits[..2]) * 85 + digits[2];
    assert Value(digits[..4]) == Value(digits[..3]) * 85 + digits[3];
  }

  lemma DigitsValue(v: int)
    requires 0 <= v < TWO_32
    ensures Value(Digits(v)) == v
  {
    ValueOfFive(Digits(v));
    assert v / 85 / 85 == v / 7225 && v / 7225 / 85 == v / 614125 && v / 614125 / 85 == v / 52200625;
  }

  lemma TopByte(v: int, w: int, low: int)
    requires v == w * 0x100_0000 + low && 0 <= w < 256 && 0 <= low < 0x100_0000
    ensures ByteOf(v, 0) == w
  {
  }

  lemma SecondByte(v: int, w: int, x: int, low: int)
    requires v == w * 0x100_0000 + x * 0x1_0000 + low && 0 <= w < 256 && 0 <= x < 256 && 0 <= low < 0x1_0000
    ensures ByteOf(v, 1) == x
  {
    assert v / 0x1_0000 == w * 0x100 + x;
  }

  lemma ThirdByte(v: int, w: int, x: int, y: int, low: int)
    requires v == w * 0x100_0000 + x * 0x1_0000 + y * 0x100 + low
    requires 0 <= w < 256 && 0 <= x < 256 && 0 <= y < 256 && 0 <= low < 0x100
    ensures ByteOf(v, 2) == y
  {
    assert v / 0x100 == w * 0x1_0000 + x * 0x100 + y;
  }

  lemma LastByte(v: int, w: int, x: int, y: int, z: int)
    requires v == w * 0x100_0000 + x * 0x1_0000 + y * 0x100 + z
    requires 0 <= w < 256 && 0 <= x < 256 && 0 <= y < 256 && 0 <= z < 256
    ensures ByteOf(v, 3) == z
  {
  }

  /** How much the padding of a group of n + 1 characters can add to its value. */
  function PadRoom(n: nat): nat { if n == 1 then 614125 else if n == 2 then 7225 else if n == 3 then 85 else 1 }

  /** Padding with 84 never lowers the value, and adds less than the missing bytes can hold. */
  lemma PaddedValue(v: int, n: nat)
    requires 0 <= v < TWO_32 && 1 <= n <= 4
    ensures v <= Value(Padded(Digits(v)[..n + 1])) < v + PadRoom(n)
  {
    hide Value;
    var d := Digits(v);
    DigitsRange(v);
    DigitsValue(v);
    ValueOfFive(d);
    var padded := Padded(d[..n + 1]);
    PaddedDigits(d, n);
    ValueOfFive(padded);
  }

  lemma PaddedDigits(d: seq<int>, n: nat)
    requires |d| == 5 && 1 <= n <= 4
    ensures var p := Padded(d[..n + 1]);
            && p[0] == d[0] && p[1] == d[1]
            && p[2] == (if n >= 2 then d[2] else 84)
            && p[3] == (if n >= 3 then d[3] else 84)
            && p[4] == (if n >= 4 then d[4] else 84)
  {
    var g := d[..n + 1];
    if n == 3 {
      assert Padded(g) == Padded(g + [84]);
    } else if n == 2 {
      assert Padded(g) == Padded(g + [84]) == Padded(g + [84] + [84]);
    } else if n == 1 {
      assert Padded(g) == Padded(g + [84]) == Padded(g + [84] + [84]) == Padded(g + [84] + [84] + [84]);
    }
  }

  lemma FilledBytes(b: seq<Byte>)
    requires 1 <= |b| <= 4
    ensures var w := ZeroFilled(b);
            w[..|b|] == b && forall i | |b| <= i < 4 :: w[i] == 0
    decreases 4 - |b|
  {
    if |b| < 4 {
      FilledBytes(b + [0]);
      assert (b + [0])[..|b|] == b;
      assert ZeroFilled(b)[..|b|] == ZeroFilled(b)[..|b| + 1][..|b|];
    }
  }

  /** The kept bytes of a word survive an addition smaller than what the missing bytes can hold. */
  lemma WordKeeps(b: seq<Byte>, extra: nat)
    requires 1 <= |b| <= 4 && extra < PadRoom(|b|)
    ensures WordBytes(Word(ZeroFilled(b)) + extra)[..|b|] == b
  {
    hide ByteOf, ZeroFilled;
    var f := ZeroFilled(b);
    FilledBytes(b);
    var w: int, x: int, y: int, z: int := f[0], f[1], f[2], f[3];
    var v := Word(f) + extra;
    TopByte(v, w, x * 0x1_0000 + y * 0x100 + z + extra);
    assert WordBytes(v)[0] == f[..|b|][0];
    if |b| >= 2 {
      SecondByte(v, w, x, y * 0x100 + z + extra);
      assert WordBytes(v)[1] == f[..|b|][1];
    }
    if |b| >= 3 {
      ThirdByte(v, w, x, y, z + extra);
      assert WordBytes(v)[2] == f[..|b|][2];
    }
    if |b| == 4 {
      LastByte(v, w, x, y, z);
      assert WordBytes(v)[3] == f[..|b|][3];
    }
  }

  /** A last partial group gives back exactly its bytes. */
  lemma PartialGroup(b: seq<Byte>)
    requires 1 <= |b| <= 3
    ensures FlushBytes(Digits(Word(ZeroFilled(b)))[..|b| + 1]) == b
  {
    hide Value, Padded, Digits, WordBytes, ZeroFilled, Word;
    var v := Word(ZeroFilled(b));
    WordRange(ZeroFilled(b));
    PaddedValue(v, |b|);
    WordKeeps(b, Value(Padded(Digits(v)[..|b| + 1])) - v);
  }

  lemma FullGroup(b: seq<Byte>)
    requires |b| == 4
    ensures WordBytes(Value(Digits(Word(b)))) == b
  {
    hide Value, Digits, WordBytes, Word;
    WordRange(b);
    DigitsValue(Word(b));
    WordKeeps(b, 0);
    assert WordBytes(Word(b))[..4] == WordBytes(Word(b)) && b[..4] == b;
  }

  lemma ZeroWord(b: seq<Byte>)
    requires |b| == 4 && Word(b) == 0
    ensures b == [0, 0, 0, 0]
  {
  }

  /** Decoding an encoding gives back the bytes when they fit, and reports too large when they do not. */
  lemma {:induction false} DecodeInvertsEncode(b: seq<Byte>, room: nat)
    ensures Decode(Encoded(b), [], room) == if |b| <= room then Ok(b) else Raise(TooLarge)
    decreases |b|
  {
    hide Value, Digits, WordBytes, Word, Chars, Decode;
    if b == [] {
      DecodeNothing(room);
    } else {
      var n := if |b| < 4 then |b| else 4;
      var v := Word(ZeroFilled(b[..n]));
      WordRange(ZeroFilled(b[..n]));
      DigitsRange(v);
      if n < 4 {
        assert b[..n] == b && b[n..] == [];
        assert Encoded(b) == Chars(Digits(v)[..n + 1]) + [];
        LastGroup(b, room);
      } else {
        var head, rest := b[..4], b[4..];
        assert ZeroFilled(head) == head && head + rest == b;
        if room >= 4 {
          DecodeInvertsEncode(rest, room - 4);
        }
        if v == 0 {
          ZeroWord(head);
          DecodeZ(Encoded(rest), room);
        } else {
          assert Digits(v)[..5] == Digits(v);
          ReadWord(Digits(v), Encoded(rest), room);
          FullGroup(head);
        }
      }
    }
  }

  lemma DecodeNothing(room: nat)
    ensures Decode([], [], room) == Ok([])
  {
  }

  lemma DecodeZ(rest: seq<Byte>, room: nat)
    ensures Decode([Z] + rest, [], room) == Then([0, 0, 0, 0], rest, room)
  {
    assert ([Z] + rest)[1..] == rest;
  }

  lemma LastGroup(b: seq<Byte>, room: nat)
    requires 1 <= |b| <= 3
    requires AreDigits(Digits(Word(ZeroFilled(b))))
    ensures Decode(Chars(Digits(Word(ZeroFilled(b)))[..|b| + 1]) + [], [], room)
         == if |b| <= room then Ok(b) else Raise(TooLarge)
  {
    hide Digits, WordBytes, Word, Chars, FlushBytes;
    var digits := Digits(Word(ZeroFilled(b)))[..|b| + 1];
    PartialGroup(b);
    ReadDigits(digits, [], [], room);
    assert [] + digits == digits;
  }

  // ---------- the whole stream, markers and white space included ----------

  ghost predicate NoTilde(s: seq<Byte>) { forall i | 0 <= i < |s| :: s[i] != TILDE }

  lemma CharsNoTilde(digits: seq<int>)
    requires AreDigits(digits)
    ensures NoTilde(Chars(digits))
  {
  }

  lemma {:induction false} EncodedChars(b: seq<Byte>)
    ensures NoTilde(Encoded(b))
    ensures |Encoded(b)| == 1 ==> Encoded(b)[0] == Z
    decreases |b|
  {
    hide Value, Digits, Word, Chars;
    if b != [] {
      var n := if |b| < 4 then |b| else 4;
      EncodedChars(b[n..]);
      WordRange(ZeroFilled(b[..n]));
      DigitsRange(Word(ZeroFilled(b[..n])));
      CharsNoTilde(Digits(Word(ZeroFilled(b[..n])))[..n + 1]);
    }
  }

  lemma {:induction false} UpToMarker(s: seq<Byte>, tail: seq<Byte>)
    requires NoTilde(s) && EndsStream(tail)
    ensures UpToEnd(s + tail) == s
  {
    if s == [] {
      assert s + tail == tail;
    } else {
      assert (s + tail)[1..] == s[1..] + tail;
      UpToMarker(s[1..], tail);
    }
  }

  /** Nothing more, or the end marker ~> and anything after it. */
  ghost predicate EndsStream(tail: seq<Byte>) {
    tail == [] || (|tail| >= 2 && tail[0] == 126 && tail[1] == 62)
  }

  lemma PrefixDropped(s: seq<Byte>, marked: bool, tail: seq<Byte>)
    requires NoTilde(s) && (|s| == 1 ==> s[0] == Z) && EndsStream(tail)
    ensures WithoutPrefix((if marked then [LESS, TILDE] else []) + s + tail) == s + tail
  {
    if marked {
      assert ([LESS, TILDE] + s + tail)[2..] == s + tail;
    } else {
      var text := [] + s + tail;
      assert text == s + tail;
      assert |s| >= 2 ==> text[1] == s[1];
    }
  }

  /**
   * Any stream that is an encoding once white space is dropped, with or without its markers,
   * decodes to the encoded bytes; it is refused only when they do not fit.
   */
  lemma StreamRoundTrip(data: seq<Byte>, b: seq<Byte>, marked: bool, tail: seq<Byte>, limit: nat)
    requires EndsStream(tail)
    requires WithoutSpace(data) == (if marked then [60, 126] else []) + Encoded(b) + tail
    ensures Decode(Body(data), [], limit) == if |b| <= limit then Ok(b) else Raise(TooLarge)
  {
    hide Decode, Encoded;
    EncodedChars(b);
    PrefixDropped(Encoded(b), marked, tail);
    UpToMarker(Encoded(b), tail);
    DecodeInvertsEncode(b, limit);
  }

  // ---------- white space, characters and refusals ----------

  lemma {:induction false} WithoutSpaceConcat(a: seq<Byte>, b: seq<Byte>)
    ensures WithoutSpace(a + b) == WithoutSpace(a) + WithoutSpace(b)
  {
    if a == [] {
      assert a + b == b;
    } else {
      assert (a + b)[1..] == a[1..] + b;
      WithoutSpaceConcat(a[1..], b);
    }
  }

  /** A tab, line feed, vertical tab, form feed, return, space or no-break space is dropped; nothing else is. */
  lemma SpaceIgnored(a: seq<Byte>, c: Byte, b: seq<Byte>)
    ensures WithoutSpace(a + [c] + b) == WithoutSpace(a + b) <==> c in {9, 10, 11, 12, 13, 32, 160}
    ensures c in {9, 10, 11, 12, 13, 32, 160} ==> Body(a + [c] + b) == Body(a + b)
  {
    WithoutSpaceConcat(a + [c], b);
    WithoutSpaceConcat(a, [c]);
    WithoutSpaceConcat(a, b);
    assert WithoutSpace([c]) == if c in {9, 10, 11, 12, 13, 32, 160} then [] else [c];
    assert |WithoutSpace(a + [c] + b)| == |WithoutSpace(a + b)| + |WithoutSpace([c])|;
  }

  /** "Man " is written 9jqo^, and four zero bytes are written z. */
  lemma KnownGroups()
    ensures Encoded([77, 97, 110, 32]) == [57, 106, 113, 111, 94] && Encoded([0, 0, 0, 0]) == [122]
    ensures Decode([57, 106, 113, 111, 94], [], 4) == Ok([77, 97, 110, 32]) && Decode([122], [], 4) == Ok([0, 0, 0, 0])
  {
    var man: seq<Byte> := [77, 97, 110, 32];
    assert Word(man) == 1298230816;
    assert Digits(1298230816) == [24, 73, 80, 78, 61];
    assert man[4..] == [] && man[..4] == man;
    var none: seq<Byte> := [0, 0, 0, 0];
    assert Word(none) == 0 && none[4..] == [] && none[..4] == none;
    DecodeInvertsEncode(man, 4);
    DecodeInvertsEncode(none, 4);
  }

  /** A character outside ! to u that is no z is refused; a body of characters from ! to u never is. */
  lemma {:induction false} RefusedCharacters(body: seq<Byte>, group: seq<int>, room: int)
    requires |group| < 5
    ensures (exists i | 0 <= i < |body| :: (body[i] < 33 || body[i] > 117) && body[i] != 122) ==>
              Decode(body, group, room).Raise?
    ensures (forall i | 0 <= i < |body| :: 33 <= body[i] <= 117) ==>
              Decode(body, group, room) != Raise(NotAscii85)
    decreases |body|
  {
    hide FlushBytes, WordBytes, Value;
    if body != [] {
      var rest := body[1..];
      assert forall i | 1 <= i < |body| :: body[i] == rest[i - 1];
      RefusedCharacters(rest, [], room - 4);
      if |group| < 4 {
        RefusedCharacters(rest, group + [DigitOf(body[0])], room);
      }
    }
  }
}
