/** Undoing the PNG predictor of a PDF stream: every row into a fresh buffer. */
module PngPredictor {
  import opened PngFilters

  function Zeros(n: nat): (s: seq<Byte>)
    ensures |s| == n && forall i | 0 <= i < n :: s[i] == 0
  {
    seq(n, _ => 0)
  }

  /** Cut the bytes into rows behind their filter byte, and decode each against the row above it. */
  function DecodedRows(bytes: seq<Byte>, rowSize: nat, bpp: nat, prior: seq<Byte>): seq<Byte> {
    if |bytes| < rowSize + 1 then []
    else
      var raw := Decoded(bytes[0], bytes[1..rowSize + 1], prior, bpp);
      raw + DecodedRows(bytes[rowSize + 1..], rowSize, bpp, raw)
  }

  /** The stream an encoder writes, with any choice of filter for each row. */
  function EncodedRows(rows: seq<seq<Byte>>, filters: seq<Byte>, bpp: nat, prior: seq<Byte>): seq<Byte>
    requires |filters| == |rows|
  {
    if rows == [] then []
    else [filters[0]] + Filtered(filters[0], rows[0], prior, bpp) + EncodedRows(rows[1..], filters[1..], bpp, rows[0])
  }

  function Flatten(rows: seq<seq<Byte>>): seq<Byte> {
    if rows == [] then [] else rows[0] + Flatten(rows[1..])
  }

  /** Every image comes back from its filtered rows, whatever filter each row used. */
  lemma {:induction false} PredictorInvertsFilters(rows: seq<seq<Byte>>, filters: seq<Byte>, rowSize: nat, bpp: nat,
                                                   prior: seq<Byte>)
    requires 1 <= bpp && |filters| == |rows| && forall i | 0 <= i < |rows| :: |rows[i]| == rowSize
    ensures DecodedRows(EncodedRows(rows, filters, bpp, prior), rowSize, bpp, prior) == Flatten(rows)
    decreases |rows|
  {
    hide Filtered, Decoded;
    if rows != [] {
      var bytes, row := EncodedRows(rows, filters, bpp, prior), Filtered(filters[0], rows[0], prior, bpp);
      assert bytes[1..rowSize + 1] == row;
      assert bytes[rowSize + 1..] == EncodedRows(rows[1..], filters[1..], bpp, rows[0]);
      UnfilterInvertsFilter(filters[0], rows[0], prior, bpp);
      PredictorInvertsFilters(rows[1..], filters[1..], rowSize, bpp, rows[0]);
    }
  }

  /** Decode one row of a stream into a fresh buffer. */
  method DecodeRow(bytes: array<Byte>, at: nat, rowSize: nat, bpp: nat, prior: array<Byte>)
    returns (recon: array<Byte>)
    requires 1 <= bpp && at + rowSize + 1 <= bytes.Length && prior.Length == rowSize
    ensures fresh(recon) && recon.Length == rowSize
    ensures recon[..] == Decoded(bytes[at], bytes[..][at + 1..at + 1 + rowSize], prior[..], bpp)
    ensures PlainRow(bytes[at], bytes[..][at + 1..at + 1 + rowSize], prior[..], bpp, recon[..])
  {
    hide Predict;
    var filter := bytes[at];
    ghost var filt := bytes[..][at + 1..at + 1 + rowSize];
    recon := new Byte[rowSize];
    for x := 0 to rowSize
      invariant recon[..x] == DecodedUpTo(filter, filt, prior[..], bpp, x)
    {
      ghost var before := recon[..x];
      var left := if x >= bpp then recon[x - bpp] else 0;
      var up := prior[x];
      var upLeft := if x >= bpp then prior[x - bpp] else 0;
      assert Predict(filter, left, up, upLeft) == PredictAt(filter, before, prior[..], bpp, x);
      recon[x] := (bytes[at + 1 + x] + Predict(filter, left, up, upLeft)) % 256;
      assert recon[..x + 1] == before + [recon[x]];
    }
    assert recon[..rowSize] == recon[..];
    DecodedPlain(filter, filt, prior[..], bpp);
  }

  /** One more row: the decoded part grows by it and the rest starts after it. */
  lemma NextRow(bytes: seq<Byte>, at: nat, rowSize: nat, bpp: nat, prior: seq<Byte>, done: seq<Byte>, raw: seq<Byte>)
    requires at + rowSize + 1 <= |bytes|
    requires raw == Decoded(bytes[at], bytes[at + 1..at + 1 + rowSize], prior, bpp)
    ensures done + DecodedRows(bytes[at..], rowSize, bpp, prior)
         == (done + raw) + DecodedRows(bytes[at + rowSize + 1..], rowSize, bpp, raw)
  {
    hide Decoded;
    assert bytes[at..][1..rowSize + 1] == bytes[at + 1..at + 1 + rowSize];
    assert bytes[at..][rowSize + 1..] == bytes[at + rowSize + 1..];
  }

  method CopyTo(recon: array<Byte>, out: array<Byte>, at: nat)
    requires recon != out && at + recon.Length <= out.Length
    modifies out
    ensures out[..at + recon.Length] == old(out[..at]) + recon[..]
  {
    forall k | 0 <= k < recon.Length {
      out[at + k] := recon[k];
    }
  }

  /** Input shorter than one row comes back as it is; otherwise the whole rows are decoded. */
  method UndoPngPredictor(bytes: array<Byte>, rowSize: nat, bpp: nat) returns (out: array<Byte>)
    requires 1 <= rowSize && 1 <= bpp
    ensures bytes.Length < rowSize + 1 ==> out == bytes
    ensures rowSize + 1 <= bytes.Length ==>
              fresh(out) && out[..] == DecodedRows(bytes[..], rowSize, bpp, Zeros(rowSize))
  {
    hide Decoded, DecodedRows, Zeros, PlainRow;
    var stride := rowSize + 1;
    if bytes.Length < stride {
      return bytes;
    }
    var rows := bytes.Length / stride;
    out := new Byte[rows * rowSize];
    var prior := new Byte[rowSize](_ => 0);
    assert prior[..] == Zeros(rowSize);
    ghost var all := bytes[..];
    ghost var at, outAt := 0, 0;
    ghost var goal := DecodedRows(all, rowSize, bpp, Zeros(rowSize));
    assert all[0..] == all;
    for r := 0 to rows
      invariant prior.Length == rowSize && out.Length == rows * rowSize
      invariant fresh(out) && prior != out && bytes[..] == all
      invariant at == r * stride <= bytes.Length && outAt == r * rowSize <= out.Length
      invariant goal == out[..outAt] + DecodedRows(all[at..], rowSize, bpp, prior[..])
    {
      RoomForRow(r, rows, rowSize, bytes.Length);
      var recon := DecodeRow(bytes, r * stride, rowSize, bpp, prior);
      NextRow(all, at, rowSize, bpp, prior[..], out[..outAt], recon[..]);
      CopyTo(recon, out, r * rowSize);
      prior, at, outAt := recon, at + stride, outAt + rowSize;
    }
    RowsEnd(all, rows, rowSize, bpp, prior[..]);
  }

  lemma RoomForRow(r: nat, rows: nat, rowSize: nat, length: nat)
    requires r < rows && rows * (rowSize + 1) <= length
    ensures r * (rowSize + 1) + rowSize + 1 == (r + 1) * (rowSize + 1) <= length
    ensures r * rowSize + rowSize == (r + 1) * rowSize <= rows * rowSize
  {
    assert (r + 1) * rowSize <= rows * rowSize;
    assert (r + 1) * (rowSize + 1) <= rows * (rowSize + 1);
  }

  lemma RowsEnd(bytes: seq<Byte>, rows: nat, rowSize: nat, bpp: nat, prior: seq<Byte>)
    requires rows == |bytes| / (rowSize + 1)
    ensures rows * (rowSize + 1) <= |bytes|
    ensures DecodedRows(bytes[rows * (rowSize + 1)..], rowSize, bpp, prior) == []
  {
    var at := rows * (rowSize + 1);
    assert |bytes| - at < rowSize + 1;
    assert |bytes[at..]| < rowSize + 1;
  }
}
