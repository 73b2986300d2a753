/** The streaming PNG row reader: inflated bytes arrive in chunks, two line buffers take turns. */
module PngRows {
  import opened PngFilters
  import opened PngPredictor
  import opened Adam7

  /** A decoded row: its pass, its place in the pass, and its bytes. */
  datatype Row = Row(pass: nat, index: nat, bytes: seq<Byte>)

  datatype Layout = Layout(passes: seq<Pass>, bits: nat)

  function RowBytes(pixels: nat, bits: nat): nat { (pixels * bits + 7) / 8 }

  function Stride(pass: Pass, bits: nat): (n: nat)
    ensures 1 <= n
  {
    RowBytes(pass.pixels, bits) + 1
  }

  function BytesPerPixel(bits: nat): (n: nat)
    ensures 1 <= n
  {
    if (bits + 7) / 8 < 1 then 1 else (bits + 7) / 8
  }

  ghost predicate LayoutOk(l: Layout) {
    1 <= l.bits && forall i | 0 <= i < |l.passes| :: 0 < l.passes[i].pixels && 0 < l.passes[i].rows
  }

  /**
   * A line is one filter byte and the fewest bytes that hold its pixels; a pixel counts as the fewest
   * bytes that hold it, never less than one.
   */
  lemma RowSizes(pass: Pass, bits: nat)
    requires 1 <= bits
    ensures 8 * (Stride(pass, bits) - 2) < pass.pixels * bits <= 8 * (Stride(pass, bits) - 1)
    ensures 8 * (BytesPerPixel(bits) - 1) < bits <= 8 * BytesPerPixel(bits)
  {
  }

  /** A row is never shorter than one pixel. */
  lemma RowHoldsPixel(pass: Pass, bits: nat)
    requires 0 < pass.pixels && 1 <= bits
    ensures BytesPerPixel(bits) < Stride(pass, bits)
  {
    assert pass.pixels * bits >= bits;
  }

  function ZeroRow(l: Layout, p: nat): seq<Byte> {
    if p < |l.passes| then Zeros(RowBytes(l.passes[p].pixels, l.bits)) else []
  }

  /**
   * The rows in a run of bytes, from row r of pass p on: cut by each pass's stride, and decode each
   * against the row above it, or against zeros at the start of a pass.
   */
  function RowsOf(l: Layout, p: nat, r: nat, prior: seq<Byte>, bytes: seq<Byte>): seq<Row>
    decreases |bytes|
  {
    if p >= |l.passes| || |bytes| < Stride(l.passes[p], l.bits) then []
    else
      var stride := Stride(l.passes[p], l.bits);
      var row := Decoded(bytes[0], bytes[1..stride], prior, BytesPerPixel(l.bits));
      [Row(p, r, row)]
      + (if r + 1 < l.passes[p].rows then RowsOf(l, p, r + 1, row, bytes[stride..])
         else RowsOf(l, p + 1, 0, ZeroRow(l, p + 1), bytes[stride..]))
  }

  /** The rows that are counted: one in every `step` of a pass. */
  function Counted(rows: seq<Row>, step: nat): seq<Row>
    requires 1 <= step
  {
    if rows == [] then []
    else
      var last := rows[|rows| - 1];
      Counted(rows[..|rows| - 1], step) + (if last.index % step == 0 then [last] else [])
  }

  /**
   * Whatever bytes come later, the rows of everything fed are the finished ones followed by those
   * still to come out of the pending line.
   */
  ghost predicate InStep(l: Layout, fed: seq<Byte>, finished: seq<Row>, p: nat, r: nat, prior: seq<Byte>,
                         pending: seq<Byte>)
  {
    forall more: seq<Byte> ::
      RowsOf(l, 0, 0, ZeroRow(l, 0), fed + more) == finished + RowsOf(l, p, r, prior, pending + more)
  }

  lemma InStepStart(l: Layout)
    ensures InStep(l, [], [], 0, 0, ZeroRow(l, 0), [])
  {
    hide RowsOf;
    assert forall more: seq<Byte> :: [] + more == more;
  }

  lemma InStepTake(l: Layout, fed: seq<Byte>, finished: seq<Row>, p: nat, r: nat, prior: seq<Byte>,
                   pending: seq<Byte>, taken: seq<Byte>)
    requires InStep(l, fed, finished, p, r, prior, pending)
    ensures InStep(l, fed + taken, finished, p, r, prior, pending + taken)
  {
    hide RowsOf;
    forall more: seq<Byte>
      ensures RowsOf(l, 0, 0, ZeroRow(l, 0), fed + taken + more)
           == finished + RowsOf(l, p, r, prior, pending + taken + more)
    {
      assert fed + taken + more == fed + (taken + more) && pending + taken + more == pending + (taken + more);
    }
  }

  lemma RowsOfLine(l: Layout, p: nat, r: nat, prior: seq<Byte>, line: seq<Byte>, more: seq<Byte>)
    requires p < |l.passes| && |line| == Stride(l.passes[p], l.bits)
    ensures var row := Decoded(line[0], line[1..], prior, BytesPerPixel(l.bits));
            var later := if r + 1 < l.passes[p].rows then RowsOf(l, p, r + 1, row, more)
                         else RowsOf(l, p + 1, 0, ZeroRow(l, p + 1), more);
            RowsOf(l, p, r, prior, line + more) == [Row(p, r, row)] + later
  {
    hide Decoded, ZeroRow, BytesPerPixel;
    assert (line + more)[1..|line|] == line[1..] && (line + more)[|line|..] == more;
  }

  lemma InStepFinish(l: Layout, fed: seq<Byte>, finished: seq<Row>, p: nat, r: nat, prior: seq<Byte>,
                     line: seq<Byte>, row: seq<Byte>)
    requires p < |l.passes| && |line| == Stride(l.passes[p], l.bits)
    requires row == Decoded(line[0], line[1..], prior, BytesPerPixel(l.bits))
    requires InStep(l, fed, finished, p, r, prior, line)
    ensures if r + 1 < l.passes[p].rows then InStep(l, fed, finished + [Row(p, r, row)], p, r + 1, row, [])
            else InStep(l, fed, finished + [Row(p, r, row)], p + 1, 0, ZeroRow(l, p + 1), [])
  {
    hide Decoded, RowsOf, Stride, BytesPerPixel, ZeroRow;
    var again := r + 1 < l.passes[p].rows;
    var done := finished + [Row(p, r, row)];
    forall more: seq<Byte>
      ensures RowsOf(l, 0, 0, ZeroRow(l, 0), fed + more)
           == done + (if again then RowsOf(l, p, r + 1, row, [] + more)
                      else RowsOf(l, p + 1, 0, ZeroRow(l, p + 1), [] + more))
    {
      assert [] + more == more;
      RowsOfLine(l, p, r, prior, line, more);
    }
  }

  class RowReader {
    const layout: Layout
    const rowStep: nat
    var passIndex: nat
    var rowInPass: nat
    var stride: nat
    var current: array<Byte>  // the line being filled, filter byte first
    var spare: array<Byte>  // the line above it: byte 1 on is the row just decoded
    var filled: nat
    var counted: seq<Row>
    ghost var fed: seq<Byte>
    ghost var finished: seq<Row>

    ghost predicate Valid()
      reads this, current, spare
    {
      && LayoutOk(layout) && 1 <= rowStep
      && current != spare && current.Length == spare.Length == stride && filled <= stride && 1 <= stride
      && (passIndex < |layout.passes| ==>
            stride == Stride(layout.passes[passIndex], layout.bits) && rowInPass < layout.passes[passIndex].rows)
      && InStep(layout, fed, finished, passIndex, rowInPass, spare[1..], current[..filled])
      && counted == Counted(finished, rowStep)
    }

    constructor (width: nat, height: nat, interlaced: bool, bits: nat, rowStep: nat)
      requires 0 < width && 0 < height && 1 <= bits && 1 <= rowStep
      ensures Valid() && fresh(current) && fresh(spare)
      ensures layout == Layout(Passes(width, height, interlaced), bits) && this.rowStep == rowStep
      ensures fed == [] && finished == [] && filled == 0
    {
      hide RowsOf, Zeros, Passes, Counted, Stride, InStep;
      layout, this.rowStep := Layout(Passes(width, height, interlaced), bits), rowStep;
      passIndex, rowInPass, stride, filled := 0, 0, 0, 0;
      spare, current := new Byte[0], new Byte[0];
      counted, fed, finished := [], [], [];
      new;
      PassesOk(width, height, interlaced);
      StartPass();
      InStepStart(layout);
      NothingCounted(rowStep);
      assert current[..filled] == [];
    }

    /** Fresh lines for the next pass; the row above its first row is all zeros. */
    method StartPass()
      requires passIndex < |layout.passes|
      modifies this
      ensures passIndex == old(passIndex) && counted == old(counted) && fed == old(fed) && finished == old(finished)
      ensures stride == Stride(layout.passes[passIndex], layout.bits) && filled == 0 && rowInPass == 0
      ensures current != spare && fresh(current) && fresh(spare) && current.Length == spare.Length == stride
      ensures spare[1..] == ZeroRow(layout, passIndex)
    {
      stride := Stride(layout.passes[passIndex], layout.bits);
      spare := new Byte[stride](_ => 0);
      current := new Byte[stride](_ => 0);
      filled, rowInPass := 0, 0;
    }

    /** Decode the full line, count it, and let the two lines change places. */
    method FinishRow()
      requires Valid() && passIndex < |layout.passes| && filled == stride
      modifies this, current
      ensures Valid() && filled < stride && fed == old(fed)
      ensures (fresh(current) && fresh(spare)) || (current == old(spare) && spare == old(current))
      ensures exists row :: finished == old(finished) + [row]
    {
      hide InStep, Decoded, RowsOf, Stride, BytesPerPixel, ZeroRow, Counted;
      ghost var l, p, r, line, prior := layout, passIndex, rowInPass, current[..], spare[1..];
      assert current[..filled] == line;
      RowHoldsPixel(layout.passes[passIndex], layout.bits);
      Unfilter(current[0], current, spare, BytesPerPixel(layout.bits));
      ghost var row := current[1..];
      InStepFinish(l, fed, finished, p, r, prior, line, row);
      if rowInPass % rowStep == 0 {
        counted := counted + [Row(passIndex, rowInPass, current[1..])];
      }
      CountOne(finished, Row(p, r, row), rowStep);
      finished := finished + [Row(p, r, row)];
      var decoded := current;
      current := spare;
      spare := decoded;
      filled := 0;
      rowInPass := rowInPass + 1;
      if rowInPass >= layout.passes[passIndex].rows {
        passIndex := passIndex + 1;
        if passIndex < |layout.passes| {
          StartPass();
        } else {
          InStepOver(l, fed, finished, passIndex, 0, ZeroRow(l, passIndex), rowInPass, spare[1..]);
        }
      }
      assert current[..filled] == [];
    }

    /** Take a chunk of inflated bytes; what comes after the last row is ignored. */
    method Data(chunk: seq<Byte>)
      requires Valid() && filled < stride
      modifies this, current, spare
      ensures Valid() && filled < stride
      ensures (fresh(current) || current in {old(current), old(spare)})
      ensures (fresh(spare) || spare in {old(current), old(spare)})
      ensures old(passIndex) >= |layout.passes| ==> fed == old(fed) && passIndex >= |layout.passes|
      ensures exists used: nat :: used <= |chunk| && fed == old(fed) + chunk[..used]
                             && (passIndex < |layout.passes| ==> used == |chunk|)
    {
      hide InStep, RowsOf, Stride, ZeroRow, Counted, LayoutOk;
      var at := 0;
      assert fed + chunk[..0] == fed;
      while at < |chunk| && passIndex < |layout.passes|
        invariant Valid() && filled < stride && at <= |chunk|
        invariant fed == old(fed) + chunk[..at] && (old(passIndex) >= |layout.passes| ==> at == 0)
        invariant old(passIndex) >= |layout.passes| ==> passIndex >= |layout.passes|
        invariant fresh(current) || current in {old(current), old(spare)}
        invariant fresh(spare) || spare in {old(current), old(spare)}
      {
        var take := if stride - filled < |chunk| - at then stride - filled else |chunk| - at;
        Fill(chunk, at, take);
        assert chunk[..at + take] == chunk[..at] + chunk[at..at + take];
        at := at + take;
        if filled == stride {
          FinishRow();
        }
      }
    }

    /** Copy part of a chunk behind what the line already holds. */
    method Fill(chunk: seq<Byte>, at: nat, take: nat)
      requires Valid() && at + take <= |chunk| && filled + take <= stride
      modifies this`filled, this`fed, current
      ensures Valid() && filled == old(filled) + take && fed == old(fed) + chunk[at..at + take]
      ensures spare[..] == old(spare[..])
    {
      hide InStep, RowsOf, Stride, Counted;
      ghost var pending, above := current[..filled], spare[1..];
      forall k | 0 <= k < take {
        current[filled + k] := chunk[at + k];
      }
      assert spare[1..] == above;
      InStepTake(layout, fed, finished, passIndex, rowInPass, above, pending, chunk[at..at + take]);
      filled, fed := filled + take, fed + chunk[at..at + take];
      assert current[..filled] == pending + chunk[at..at + take];
    }
  }

  // ---------- chunking does not matter ----------

  /** A reader between chunks has finished exactly the rows of its bytes, and of any it will ignore. */
  lemma FinishedRows(reader: RowReader, ignored: seq<Byte>)
    requires reader.Valid() && reader.filled < reader.stride
    requires reader.passIndex < |reader.layout.passes| ==> ignored == []
    ensures reader.finished == RowsOf(reader.layout, 0, 0, ZeroRow(reader.layout, 0), reader.fed + ignored)
  {
    hide Stride, ZeroRow;
    var pending := reader.current[..reader.filled];
    assert RowsOf(reader.layout, reader.passIndex, reader.rowInPass, reader.spare[1..], pending + ignored) == [];
  }

  lemma {:induction false} FlattenAppend(chunks: seq<seq<Byte>>, last: seq<Byte>)
    ensures Flatten(chunks + [last]) == Flatten(chunks) + last
  {
    if chunks == [] {
      assert [last][1..] == [] && [] + [last] == [last];
    } else {
      FlattenAppend(chunks[1..], last);
      assert (chunks + [last])[1..] == chunks[1..] + [last];
    }
  }

  lemma Accounted(fed: seq<Byte>, ignored: seq<Byte>, chunk: seq<Byte>, used: nat)
    requires used <= |chunk| && (ignored == [] || used == 0)
    ensures fed + ignored + chunk == fed + chunk[..used] + (ignored + chunk[used..])
  {
    assert chunk == chunk[..used] + chunk[used..];
  }

  lemma FlattenNothing(chunks: seq<seq<Byte>>)
    ensures Flatten(chunks[..0]) == []
  {
  }

  /** However the bytes are cut into chunks, the rows read depend only on the bytes. */
  method ReadRows(width: nat, height: nat, interlaced: bool, bits: nat, rowStep: nat, chunks: seq<seq<Byte>>)
    returns (counted: seq<Row>)
    requires 0 < width && 0 < height && 1 <= bits && 1 <= rowStep
    ensures var l := Layout(Passes(width, height, interlaced), bits);
            counted == Counted(RowsOf(l, 0, 0, ZeroRow(l, 0), Flatten(chunks)), rowStep)
  {
    hide RowsOf, ZeroRow, Counted, Passes, Stride, InStep, Flatten;
    var reader := new RowReader(width, height, interlaced, bits, rowStep);
    ghost var ignored: seq<Byte> := [];
    FlattenNothing(chunks);
    for i := 0 to |chunks|
      invariant reader.Valid() && reader.filled < reader.stride
      invariant fresh(reader) && fresh(reader.current) && fresh(reader.spare)
      invariant reader.fed + ignored == Flatten(chunks[..i])
      invariant reader.passIndex < |reader.layout.passes| ==> ignored == []
    {
      FlattenAppend(chunks[..i], chunks[i]);
      assert chunks[..i + 1] == chunks[..i] + [chunks[i]];
      ghost var before := reader.fed;
      reader.Data(chunks[i]);
      ghost var used: nat :| used <= |chunks[i]| && reader.fed == before + chunks[i][..used]
                             && (reader.passIndex < |reader.layout.passes| ==> used == |chunks[i]|);
      Accounted(before, ignored, chunks[i], used);
      ignored := ignored + chunks[i][used..];
    }
    assert chunks[..|chunks|] == chunks;
    FinishedRows(reader, ignored);
    counted := reader.counted;
  }

  // ---------- reading inverts writing ----------

  /** The rows of one pass from row r on. */
  function PassRows(p: nat, r: nat, rows: seq<seq<Byte>>): seq<Row>
    decreases rows
  {
    if rows == [] then [] else [Row(p, r, rows[0])] + PassRows(p, r + 1, rows[1..])
  }

  function ImageRows(image: seq<seq<seq<Byte>>>, p: nat): seq<Row>
    decreases |image| - p
  {
    if p >= |image| then [] else PassRows(p, 0, image[p]) + ImageRows(image, p + 1)
  }

  /** The bytes an encoder writes: each pass's rows, filtered against a row of zeros to begin with. */
  function EncodedPasses(l: Layout, image: seq<seq<seq<Byte>>>, filters: seq<seq<Byte>>, p: nat): seq<Byte>
    requires |filters| == |image| && forall i | 0 <= i < |image| :: |filters[i]| == |image[i]|
    decreases |image| - p
  {
    if p >= |image| then []
    else EncodedRows(image[p], filters[p], BytesPerPixel(l.bits), ZeroRow(l, p))
         + EncodedPasses(l, image, filters, p + 1)
  }

  lemma {:induction false} PassRead(l: Layout, p: nat, r: nat, prior: seq<Byte>, rows: seq<seq<Byte>>,
                                    filters: seq<Byte>, rest: seq<Byte>)
    requires p < |l.passes| && |filters| == |rows| && rows != [] && |rows| == l.passes[p].rows - r
    requires forall i | 0 <= i < |rows| :: |rows[i]| == RowBytes(l.passes[p].pixels, l.bits)
    ensures RowsOf(l, p, r, prior, EncodedRows(rows, filters, BytesPerPixel(l.bits), prior) + rest)
         == PassRows(p, r, rows) + RowsOf(l, p + 1, 0, ZeroRow(l, p + 1), rest)
    decreases |rows|
  {
    hide RowsOf, Filtered, Decoded, RowBytes, BytesPerPixel, ZeroRow;
    var bpp := BytesPerPixel(l.bits);
    var line := [filters[0]] + Filtered(filters[0], rows[0], prior, bpp);
    var later := EncodedRows(rows[1..], filters[1..], bpp, rows[0]) + rest;
    assert EncodedRows(rows, filters, bpp, prior) + rest == line + later;
    assert line[1..] == Filtered(filters[0], rows[0], prior, bpp);
    RowsOfLine(l, p, r, prior, line, later);
    UnfilterInvertsFilter(filters[0], rows[0], prior, bpp);
    if |rows| > 1 {
      PassRead(l, p, r + 1, rows[0], rows[1..], filters[1..], rest);
    } else {
      assert later == rest;
    }
  }

  /** Every image, in whole or in passes and under any filters, is read back row for row. */
  lemma {:induction false} ReadingInvertsWriting(l: Layout, image: seq<seq<seq<Byte>>>, filters: seq<seq<Byte>>, p: nat)
    requires LayoutOk(l) && p <= |image| == |l.passes| == |filters|
    requires forall i | 0 <= i < |image| ::
               |filters[i]| == |image[i]| == l.passes[i].rows
               && forall r | 0 <= r < |image[i]| :: |image[i][r]| == RowBytes(l.passes[i].pixels, l.bits)
    ensures RowsOf(l, p, 0, ZeroRow(l, p), EncodedPasses(l, image, filters, p)) == ImageRows(image, p)
    decreases |image| - p
  {
    hide EncodedRows, PassRows, RowsOf, RowBytes, BytesPerPixel, ZeroRow;
    NoRows(l, p);
    if p < |image| {
      ReadingInvertsWriting(l, image, filters, p + 1);
      PassRead(l, p, 0, ZeroRow(l, p), image[p], filters[p], EncodedPasses(l, image, filters, p + 1));
    }
  }

  /**
   * An image written pass by pass and inflated in any chunks is what the reader counts rows of: its own
   * rows, from the first pass to the last.
   */
  lemma ReadBack(width: nat, height: nat, interlaced: bool, bits: nat, image: seq<seq<seq<Byte>>>,
                 filters: seq<seq<Byte>>, chunks: seq<seq<Byte>>)
    requires 0 < width && 0 < height && 1 <= bits
    requires var passes := Passes(width, height, interlaced);
             |image| == |passes| == |filters|
             && forall i | 0 <= i < |image| ::
                  |filters[i]| == |image[i]| == passes[i].rows
                  && forall r | 0 <= r < |image[i]| :: |image[i][r]| == RowBytes(passes[i].pixels, bits)
    requires Flatten(chunks) == EncodedPasses(Layout(Passes(width, height, interlaced), bits), image, filters, 0)
    ensures var l := Layout(Passes(width, height, interlaced), bits);
            RowsOf(l, 0, 0, ZeroRow(l, 0), Flatten(chunks)) == ImageRows(image, 0)
  {
    hide Passes, RowsOf, ZeroRow, EncodedPasses, ImageRows, RowBytes, Flatten;
    PassesOk(width, height, interlaced);
    ReadingInvertsWriting(Layout(Passes(width, height, interlaced), bits), image, filters, 0);
  }

  lemma NoRows(l: Layout, p: nat)
    ensures RowsOf(l, p, 0, ZeroRow(l, p), []) == []
  {
  }

  lemma PassesOk(width: nat, height: nat, interlaced: bool)
    requires 0 < width && 0 < height
    ensures var passes := Passes(width, height, interlaced);
            passes != [] && forall i | 0 <= i < |passes| :: 0 < passes[i].pixels && 0 < passes[i].rows
  {
    KeptHoldPixels(if interlaced then ADAM7 else WHOLE, width, height);
    FirstPassKept(width, height, interlaced);
    var passes := Passes(width, height, interlaced);
    assert forall i | 0 <= i < |passes| :: passes[i] in passes;
  }

  /** After the last pass nothing pending can become a row. */
  lemma InStepOver(l: Layout, fed: seq<Byte>, finished: seq<Row>, p: nat, r: nat, prior: seq<Byte>,
                   r': nat, prior': seq<Byte>)
    requires |l.passes| <= p && InStep(l, fed, finished, p, r, prior, [])
    ensures InStep(l, fed, finished, p, r', prior', [])
  {
    forall more: seq<Byte>
      ensures RowsOf(l, 0, 0, ZeroRow(l, 0), fed + more) == finished + RowsOf(l, p, r', prior', [] + more)
    {
      assert RowsOf(l, p, r, prior, [] + more) == RowsOf(l, p, r', prior', [] + more) == [];
    }
  }

  lemma NothingCounted(step: nat)
    requires 1 <= step
    ensures Counted([], step) == []
  {
  }

  lemma CountOne(rows: seq<Row>, row: Row, step: nat)
    requires 1 <= step
    ensures Counted(rows + [row], step) == Counted(rows, step) + (if row.index % step == 0 then [row] else [])
  {
    assert (rows + [row])[..|rows|] == rows;
  }
}
