/** PNG row filters (section 6 of RFC 2083) and the two decoders that undo them. */
module PngFilters {

  type Byte = x: int | 0 <= x < 256

  function Abs(x: int): int { if x < 0 then -x else x }

  /** Of left, up and upper left, the one nearest to left + up - upper left; ties in that order. */
  function Paeth(left: Byte, up: Byte, upLeft: Byte): Byte {
    var p := left + up - upLeft;
    var pa, pb, pc := Abs(p - left), Abs(p - up), Abs(p - upLeft);
    if pa <= pb && pa <= pc then left else if pb <= pc then up else upLeft
  }

  function Average(x: Byte, y: Byte): Byte {
    var sum: int := x + y;
    sum / 2
  }

  function Predict(filter: int, left: Byte, up: Byte, upLeft: Byte): Byte {
    if filter == 1 then left
    else if filter == 2 then up
    else if filter == 3 then Average(left, up)
    else if filter == 4 then Paeth(left, up, upLeft)
    else 0
  }

  function At(s: seq<Byte>, i: int): Byte { if 0 <= i < |s| then s[i] else 0 }

  /** The prediction for byte i of a row whose raw bytes up to i are known. */
  function PredictAt(filter: int, raw: seq<Byte>, prior: seq<Byte>, bpp: nat, i: nat): Byte {
    Predict(filter, At(raw, i - bpp), At(prior, i), At(prior, i - bpp))
  }

  // ---------- the standard's filtering, and what undoing it means ----------

  /** The filtered row an encoder writes. */
  function Filtered(filter: int, raw: seq<Byte>, prior: seq<Byte>, bpp: nat): (row: seq<Byte>)
    ensures |row| == |raw|
  {
    seq(|raw|, i requires 0 <= i < |raw| => (raw[i] - PredictAt(filter, raw, prior, bpp, i)) % 256)
  }

  /** Each raw byte is the filtered byte plus its prediction from already decoded bytes. */
  ghost predicate Decodes(filter: int, row: seq<Byte>, prior: seq<Byte>, bpp: nat, raw: seq<Byte>) {
    && |raw| == |row|
    && forall i | 0 <= i < |row| :: raw[i] == (row[i] + PredictAt(filter, raw, prior, bpp, i)) % 256
  }

  lemma WrapBack(raw: Byte, p: Byte)
    ensures ((raw - p) % 256 + p) % 256 == raw
  {
  }

  /** A raw row decodes its own filtered form, whatever the filter. */
  lemma FilteredDecodes(filter: int, raw: seq<Byte>, prior: seq<Byte>, bpp: nat)
    ensures Decodes(filter, Filtered(filter, raw, prior, bpp), prior, bpp, raw)
  {
    hide PredictAt;
    var row := Filtered(filter, raw, prior, bpp);
    forall i | 0 <= i < |row| ensures raw[i] == (row[i] + PredictAt(filter, raw, prior, bpp, i)) % 256 {
      WrapBack(raw[i], PredictAt(filter, raw, prior, bpp, i));
    }
  }

  /** A row has at most one decoding. */
  lemma {:induction false} DecodesOnce(filter: int, row: seq<Byte>, prior: seq<Byte>, bpp: nat,
                                    a: seq<Byte>, b: seq<Byte>)
    requires 1 <= bpp && Decodes(filter, row, prior, bpp, a) && Decodes(filter, row, prior, bpp, b)
    ensures a == b
  {
    hide Predict;
    var i := 0;
    while i < |row|
      invariant i <= |row| && forall k | 0 <= k < i :: a[k] == b[k]
    {
      assert At(a, i - bpp) == At(b, i - bpp);
      assert a[i] == (row[i] + PredictAt(filter, a, prior, bpp, i)) % 256;
      assert b[i] == (row[i] + PredictAt(filter, b, prior, bpp, i)) % 256;
      i := i + 1;
    }
  }

  /** The decoded row, byte by byte. */
  function DecodedUpTo(filter: int, row: seq<Byte>, prior: seq<Byte>, bpp: nat, n: nat): (raw: seq<Byte>)
    requires n <= |row|
    ensures |raw| == n
  {
    if n == 0 then []
    else
      var raw := DecodedUpTo(filter, row, prior, bpp, n - 1);
      raw + [(row[n - 1] + PredictAt(filter, raw, prior, bpp, n - 1)) % 256]
  }

  function Decoded(filter: int, row: seq<Byte>, prior: seq<Byte>, bpp: nat): (raw: seq<Byte>)
    ensures |raw| == |row|
  {
    DecodedUpTo(filter, row, prior, bpp, |row|)
  }

  lemma {:induction false} DecodedUpToDecodes(filter: int, row: seq<Byte>, prior: seq<Byte>, bpp: nat, n: nat)
    requires 1 <= bpp && n <= |row|
    ensures Decodes(filter, row[..n], prior, bpp, DecodedUpTo(filter, row, prior, bpp, n))
  {
    hide Predict;
    if n > 0 {
      DecodedUpToDecodes(filter, row, prior, bpp, n - 1);
      var before, raw := DecodedUpTo(filter, row, prior, bpp, n - 1), DecodedUpTo(filter, row, prior, bpp, n);
      forall i | 0 <= i < n ensures raw[i] == (row[..n][i] + PredictAt(filter, raw, prior, bpp, i)) % 256 {
        assert At(raw, i - bpp) == At(before, i - bpp);
        if i < n - 1 {
          assert row[..n][i] == row[..n - 1][i];
        }
      }
    }
  }

  lemma DecodedIsOnly(filter: int, row: seq<Byte>, prior: seq<Byte>, bpp: nat, raw: seq<Byte>)
    requires 1 <= bpp && Decodes(filter, row, prior, bpp, raw)
    ensures raw == Decoded(filter, row, prior, bpp)
  {
    DecodedUpToDecodes(filter, row, prior, bpp, |row|);
    assert row[..|row|] == row;
    DecodesOnce(filter, row, prior, bpp, raw, Decoded(filter, row, prior, bpp));
  }

  /** Decoding a filtered row gives back the raw row. */
  lemma UnfilterInvertsFilter(filter: int, raw: seq<Byte>, prior: seq<Byte>, bpp: nat)
    requires 1 <= bpp
    ensures Decoded(filter, Filtered(filter, raw, prior, bpp), prior, bpp) == raw
  {
    FilteredDecodes(filter, raw, prior, bpp);
    DecodedIsOnly(filter, Filtered(filter, raw, prior, bpp), prior, bpp, raw);
  }

  // ---------- the standard's five filters, byte by byte ----------

  ghost function Distance(x: int, y: int): nat { if x < y then y - x else x - y }

  /** The neighbour nearest to left + up - upLeft; of equally near ones left goes before up, up before upper left. */
  ghost predicate Nearest(pick: int, left: int, up: int, upLeft: int) {
    var p := left + up - upLeft;
    && pick in {left, up, upLeft}
    && (forall c | c in {left, up, upLeft} :: Distance(p, pick) <= Distance(p, c))
    && (Distance(p, left) == Distance(p, pick) ==> pick == left)
    && (Distance(p, up) == Distance(p, pick) ==> pick == left || pick == up)
  }

  ghost predicate PlainByte(filter: int, byte: int, left: int, up: int, upLeft: int, raw: int) {
    if filter == 1 then raw == (byte + left) % 256
    else if filter == 2 then raw == (byte + up) % 256
    else if filter == 3 then raw == (byte + (left + up) / 2) % 256
    else if filter == 4 then exists pick :: Nearest(pick, left, up, upLeft) && raw == (byte + pick) % 256
    else raw == byte
  }

  /** A filtered row and what it stands for under the row above, missing neighbours read as zero. */
  ghost predicate PlainRow(filter: int, row: seq<Byte>, above: seq<Byte>, bpp: nat, raw: seq<Byte>) {
    |raw| == |row| == |above| && forall i | 0 <= i < |row| :: PlainAt(filter, row, above, bpp, raw, i)
  }

  ghost predicate PlainAt(filter: int, row: seq<Byte>, above: seq<Byte>, bpp: nat, raw: seq<Byte>, i: nat)
    requires i < |raw| == |row| == |above|
  {
    var left, upLeft := if i < bpp then 0 else raw[i - bpp], if i < bpp then 0 else above[i - bpp];
    PlainByte(filter, row[i], left, above[i], upLeft, raw[i])
  }

  lemma PredictPlain(filter: int, byte: Byte, left: Byte, up: Byte, upLeft: Byte)
    ensures PlainByte(filter, byte, left, up, upLeft, (byte + Predict(filter, left, up, upLeft)) % 256)
  {
    if filter == 4 {
      assert Nearest(Paeth(left, up, upLeft), left, up, upLeft);
    }
  }

  lemma DecodedPlain(filter: int, row: seq<Byte>, above: seq<Byte>, bpp: nat)
    requires 1 <= bpp && |row| == |above|
    ensures PlainRow(filter, row, above, bpp, Decoded(filter, row, above, bpp))
  {
    hide Predict, PlainByte;
    DecodedUpToDecodes(filter, row, above, bpp, |row|);
    assert row[..|row|] == row;
    var raw := Decoded(filter, row, above, bpp);
    forall i | 0 <= i < |row|
      ensures PlainAt(filter, row, above, bpp, raw, i)
    {
      assert i < bpp ==> At(raw, i - bpp) == 0 && At(above, i - bpp) == 0;
      assert i >= bpp ==> At(raw, i - bpp) == raw[i - bpp] && At(above, i - bpp) == above[i - bpp];
      assert raw[i] == (row[i] + PredictAt(filter, raw, above, bpp, i)) % 256;
      PredictPlain(filter, row[i], At(raw, i - bpp), At(above, i), At(above, i - bpp));
    }
  }

  // ---------- the in-place decoder ----------

  /** The in-place decoder's own comparison of the same three distances. */
  function InlinePaeth(left: Byte, up: Byte, upLeft: Byte): Byte {
    var pa, pb, pc := Abs(up - upLeft), Abs(left - upLeft), Abs(left + up - 2 * upLeft);
    if pa <= pb && pa <= pc then left else if pb <= pc then up else upLeft
  }

  lemma PaethFormsAgree(left: Byte, up: Byte, upLeft: Byte)
    ensures InlinePaeth(left, up, upLeft) == Paeth(left, up, upLeft)
  {
  }

  /** Bytes before i are decoded, bytes from i on are still filtered. */
  ghost predicate HalfDone(filter: int, row: seq<Byte>, prior: seq<Byte>, bpp: nat, now: seq<Byte>, i: nat) {
    && |now| == |row| && i <= |row|
    && (forall k | i <= k < |row| :: now[k] == row[k])
    && (forall k | 0 <= k < i :: now[k] == (row[k] + PredictAt(filter, now, prior, bpp, k)) % 256)
  }

  /** Writing the next decoded byte keeps the row half done. */
  lemma HalfDoneStep(filter: int, row: seq<Byte>, prior: seq<Byte>, bpp: nat, now: seq<Byte>, i: nat, next: seq<Byte>)
    requires 1 <= bpp && i < |row| && HalfDone(filter, row, prior, bpp, now, i)
    requires next == now[i := (now[i] + PredictAt(filter, now, prior, bpp, i)) % 256]
    ensures HalfDone(filter, row, prior, bpp, next, i + 1)
  {
    hide Predict;
    forall k | 0 <= k <= i ensures PredictAt(filter, next, prior, bpp, k) == PredictAt(filter, now, prior, bpp, k) {
      assert At(next, k - bpp) == At(now, k - bpp);
    }
  }

  /** The in-place decoder's prediction for each filter, the first bpp bytes apart. */
  lemma PredictionCases(now: seq<Byte>, prior: seq<Byte>, bpp: nat, i: nat)
    requires 1 <= bpp && i < |now| == |prior|
    ensures PredictAt(1, now, prior, bpp, i) == if i < bpp then 0 else now[i - bpp]
    ensures PredictAt(2, now, prior, bpp, i) == prior[i]
    ensures PredictAt(3, now, prior, bpp, i)
         == if i < bpp then prior[i] / 2 else (now[i - bpp] as int + prior[i] as int) / 2
    ensures PredictAt(4, now, prior, bpp, i)
         == if i < bpp then prior[i] else InlinePaeth(now[i - bpp], prior[i], prior[i - bpp])
  {
    if i >= bpp {
      PaethFormsAgree(now[i - bpp], prior[i], prior[i - bpp]);
    }
  }

  /** The first bytes of a row have no left neighbour, and an unknown filter predicts nothing at all. */
  lemma HalfDoneUntouched(filter: int, row: seq<Byte>, prior: seq<Byte>, bpp: nat, n: nat)
    requires |row| == |prior| && n <= |row|
    requires n == 0 || (filter == 1 && n <= bpp) || filter < 1 || 4 < filter
    ensures HalfDone(filter, row, prior, bpp, row, n)
  {
  }

  lemma HalfDoneAll(filter: int, row: seq<Byte>, prior: seq<Byte>, bpp: nat, now: seq<Byte>)
    requires 1 <= bpp && HalfDone(filter, row, prior, bpp, now, |row|)
    ensures now == Decoded(filter, row, prior, bpp)
  {
    DecodedIsOnly(filter, row, prior, bpp, now);
  }

  /** Add a prediction to one byte of the row. */
  method AddAt(line: array<Byte>, i: nat, prediction: Byte, ghost filter: int, ghost row: seq<Byte>,
               ghost prior: seq<Byte>, ghost bpp: nat)
    requires 1 <= bpp && line.Length == |row| + 1 && i < |row|
    requires HalfDone(filter, row, prior, bpp, line[1..], i)
    requires prediction == PredictAt(filter, line[1..], prior, bpp, i)
    modifies line
    ensures line[0] == old(line[0])
    ensures HalfDone(filter, row, prior, bpp, line[1..], i + 1)
  {
    hide PredictAt, HalfDone;
    ghost var now := line[1..];
    line[1 + i] := (line[1 + i] + prediction) % 256;
    assert line[1..] == now[i := (now[i] + prediction) % 256];
    HalfDoneStep(filter, row, prior, bpp, now, i, line[1..]);
  }

  /**
   * Undo one row's filter in place. `line` and `above` hold their filter byte first; the row is
   * what follows it.
   */
  method Unfilter(filter: int, line: array<Byte>, above: array<Byte>, bpp: nat)
    requires line != above && line.Length == above.Length && 1 <= bpp < line.Length
    modifies line
    ensures line[0] == old(line[0])
    ensures line[1..] == Decoded(filter, old(line[1..]), above[1..], bpp)
    ensures PlainRow(filter, old(line[1..]), above[1..], bpp, line[1..])
  {
    hide *;
    ghost var row, prior := line[1..], above[1..];
    var length := line.Length - 1;
    if filter == 1 {
      HalfDoneUntouched(filter, row, prior, bpp, bpp);
      for i := bpp to length
        invariant line[0] == old(line[0]) && above[1..] == prior
        invariant HalfDone(filter, row, prior, bpp, line[1..], i)
      {
        PredictionCases(line[1..], prior, bpp, i);
        AddAt(line, i, line[1 + i - bpp], filter, row, prior, bpp);
      }
    } else if filter == 2 {
      HalfDoneUntouched(filter, row, prior, bpp, 0);
      for i := 0 to length
        invariant line[0] == old(line[0]) && above[1..] == prior
        invariant HalfDone(filter, row, prior, bpp, line[1..], i)
      {
        PredictionCases(line[1..], prior, bpp, i);
        AddAt(line, i, above[1 + i], filter, row, prior, bpp);
      }
    } else if filter == 3 {
      HalfDoneUntouched(filter, row, prior, bpp, 0);
      for i := 0 to bpp
        invariant line[0] == old(line[0]) && above[1..] == prior
        invariant HalfDone(filter, row, prior, bpp, line[1..], i)
      {
        PredictionCases(line[1..], prior, bpp, i);
        AddAt(line, i, above[1 + i] / 2, filter, row, prior, bpp);
      }
      for i := bpp to length
        invariant line[0] == old(line[0]) && above[1..] == prior
        invariant HalfDone(filter, row, prior, bpp, line[1..], i)
      {
        PredictionCases(line[1..], prior, bpp, i);
        AddAt(line, i, (line[1 + i - bpp] as int + above[1 + i] as int) / 2, filter, row, prior, bpp);
      }
    } else if filter == 4 {
      HalfDoneUntouched(filter, row, prior, bpp, 0);
      for i := 0 to bpp
        invariant line[0] == old(line[0]) && above[1..] == prior
        invariant HalfDone(filter, row, prior, bpp, line[1..], i)
      {
        PredictionCases(line[1..], prior, bpp, i);
        AddAt(line, i, above[1 + i], filter, row, prior, bpp);
      }
      for i := bpp to length
        invariant line[0] == old(line[0]) && above[1..] == prior
        invariant HalfDone(filter, row, prior, bpp, line[1..], i)
      {
        PredictionCases(line[1..], prior, bpp, i);
        AddAt(line, i, InlinePaeth(line[1 + i - bpp], above[1 + i], above[1 + i - bpp]), filter, row, prior, bpp);
      }
    } else {
      HalfDoneUntouched(filter, row, prior, bpp, length);
    }
    HalfDoneAll(filter, row, prior, bpp, line[1..]);
    DecodedPlain(filter, row, prior, bpp);
  }
}
