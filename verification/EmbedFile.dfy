/** The binary index file of brain/src/embed_store.rs: what `flush` writes and `load_file` reads. */
module EmbedFile {
  import opened Numbers
  import opened Sequences

  /** The bytes of one row: a 128-bit id and its vector. */
  const ROW: nat := 16 + 4 * DIM

  const MAGIC: nat := 0x4454_4231

  /** The rows of an index: ids and, flat, the bit patterns of `DIM` 32-bit floats for each. */
  datatype Rows = Rows(ids: seq<nat>, vectors: seq<nat>)

  function Pow256(k: nat): nat {
    if k == 0 then 1 else 256 * Pow256(k - 1)
  }

  // ----- little-endian numbers -----

  function LeBytes(n: nat, k: nat): (r: seq<Byte>)
    ensures |r| == k
  {
    if k == 0 then [] else [n % 256] + LeBytes(n / 256, k - 1)
  }

  function FromLe(b: seq<Byte>): nat {
    if b == [] then 0 else b[0] + 256 * FromLe(b[1..])
  }

  lemma {:induction false} LeRoundTrip(n: nat, k: nat)
    requires n < Pow256(k)
    ensures FromLe(LeBytes(n, k)) == n
  {
    if k > 0 {
      LeRoundTrip(n / 256, k - 1);
      assert LeBytes(n, k)[1..] == LeBytes(n / 256, k - 1);
    }
  }

  // ----- one row -----

  function FloatBytes(row: seq<nat>): (r: seq<Byte>)
    ensures |r| == 4 * |row|
  {
    if row == [] then [] else LeBytes(row[0], 4) + FloatBytes(row[1..])
  }

  function Floats(b: seq<Byte>): (r: seq<nat>)
    requires |b| % 4 == 0
    ensures |r| == |b| / 4
  {
    if b == [] then [] else [FromLe(b[..4])] + Floats(b[4..])
  }

  ghost predicate Fit(s: seq<nat>, bound: nat) {
    forall i :: 0 <= i < |s| ==> s[i] < bound
  }

  lemma {:induction false} FloatsRoundTrip(row: seq<nat>)
    requires Fit(row, Pow256(4))
    ensures Floats(FloatBytes(row)) == row
  {
    if row != [] {
      var b := FloatBytes(row);
      assert b[..4] == LeBytes(row[0], 4) && b[4..] == FloatBytes(row[1..]);
      LeRoundTrip(row[0], 4);
      FloatsRoundTrip(row[1..]);
    }
  }

  // ----- the file -----

  ghost predicate Shaped(rows: Rows) {
    |rows.vectors| == |rows.ids| * DIM
  }

  function EncodeRows(rows: Rows): seq<Byte>
    requires Shaped(rows)
    decreases |rows.ids|
  {
    if rows.ids == [] then []
    else LeBytes(rows.ids[0], 16) + FloatBytes(rows.vectors[..DIM]) + EncodeRows(Rows(rows.ids[1..],
        rows.vectors[DIM..]))
  }

  function Header(count: nat): (r: seq<Byte>)
    ensures |r| == 16
  {
    LeBytes(MAGIC, 4) + LeBytes(DIM, 4) + LeBytes(count, 8)
  }

  function Encode(rows: Rows): seq<Byte>
    requires Shaped(rows)
  {
    Header(|rows.ids|) + EncodeRows(rows)
  }

  /** Reads `count` rows; fails when the bytes run out, and leaves trailing bytes unread. */
  function DecodeRows(b: seq<Byte>, count: nat): (r: Option<Rows>)
    ensures r.Some? ==> |r.value.ids| == count && Shaped(r.value)
    decreases count
  {
    if count == 0 then Some(Rows([], []))
    else if |b| < ROW then None
    else match DecodeRows(b[ROW..], count - 1)
      case None => None
      case Some(rest) => Some(Rows([FromLe(b[..16])] + rest.ids, Floats(b[16..ROW]) + rest.vectors))
  }

  function Decode(b: seq<Byte>): (r: Option<Rows>)
    ensures r.Some? ==> Shaped(r.value)
  {
    if |b| < 4 || FromLe(b[..4]) != MAGIC then None
    else if |b| < 8 || FromLe(b[4..8]) != DIM then None
    else if |b| < 16 then None
    else DecodeRows(b[16..], FromLe(b[8..16]))
  }

  /** Ids are 128-bit, floats 32-bit, and the count fits 64 bits. */
  ghost predicate Representable(rows: Rows) {
    Shaped(rows) && Fit(rows.ids, Pow256(16)) && Fit(rows.vectors, Pow256(4)) && |rows.ids| < Pow256(8)
  }

  lemma Pieces<T>(a: seq<T>, b: seq<T>, c: seq<T>)
    ensures (a + b + c)[..|a|] == a && (a + b + c)[|a|..|a| + |b|] == b && (a + b + c)[|a| + |b|..] == c
  {
  }

  /** `rest` completes the rows read so far. */
  ghost function Completed(read: Rows, rest: Option<Rows>): Option<Rows> {
    match rest case None => None case Some(more) => Some(Rows(read.ids + more.ids, read.vectors + more.vectors))
  }

  lemma DecodeFront(id: seq<Byte>, row: seq<Byte>, rest: seq<Byte>, count: nat)
    requires |id| == 16 && |row| == 4 * DIM
    ensures DecodeRows(id + row + rest, count + 1)
         == Completed(Rows([FromLe(id)], Floats(row)), DecodeRows(rest, count))
  {
    Pieces(id, row, rest);
  }

  lemma RowRoundTrip(id: nat, row: seq<nat>, rest: seq<Byte>, count: nat)
    requires id < Pow256(16) && |row| == DIM && Fit(row, Pow256(4))
    ensures DecodeRows(LeBytes(id, 16) + FloatBytes(row) + rest, count + 1)
         == Completed(Rows([id], row), DecodeRows(rest, count))
  {
    LeRoundTrip(id, 16);
    FloatsRoundTrip(row);
    DecodeFront(LeBytes(id, 16), FloatBytes(row), rest, count);
  }

  /** The rows behind the first. */
  ghost function Behind(rows: Rows): (r: Rows)
    requires Shaped(rows) && rows.ids != []
    ensures Shaped(r)
  {
    Rows(rows.ids[1..], rows.vectors[DIM..])
  }

  lemma FirstAndBehind(rows: Rows)
    requires Shaped(rows) && rows.ids != []
    ensures Completed(Rows([rows.ids[0]], rows.vectors[..DIM]), Some(Behind(rows))) == Some(rows)
  {
    assert [rows.ids[0]] + rows.ids[1..] == rows.ids && rows.vectors[..DIM] + rows.vectors[DIM..] == rows.vectors;
  }

  lemma {:induction false} RowsRoundTrip(rows: Rows, tail: seq<Byte>)
    requires Shaped(rows) && Fit(rows.ids, Pow256(16)) && Fit(rows.vectors, Pow256(4))
    ensures DecodeRows(EncodeRows(rows) + tail, |rows.ids|) == Some(rows)
    decreases |rows.ids|
  {
    if rows.ids != [] {
      var id, row, rest := rows.ids[0], rows.vectors[..DIM], Behind(rows);
      Assoc(LeBytes(id, 16) + FloatBytes(row), EncodeRows(rest), tail);
      RowRoundTrip(id, row, EncodeRows(rest) + tail, |rest.ids|);
      RowsRoundTrip(rest, tail);
      FirstAndBehind(rows);
    }
  }

  lemma PowersOf256()
    ensures Pow256(4) == 0x1_0000_0000 && Pow256(8) == 0x1_0000_0000_0000_0000
  {
    assert Pow256(2) == 65536;
    assert Pow256(3) == 256 * Pow256(2);
    assert Pow256(5) == 256 * Pow256(4);
    assert Pow256(6) == 256 * Pow256(5);
    assert Pow256(7) == 256 * Pow256(6);
  }

  lemma DecodeParts(magic: seq<Byte>, dim: seq<Byte>, count: seq<Byte>, rest: seq<Byte>)
    requires |magic| == 4 && |dim| == 4 && |count| == 8 && FromLe(magic) == MAGIC && FromLe(dim) == DIM
    ensures Decode(magic + dim + count + rest) == DecodeRows(rest, FromLe(count))
  {
    var b := magic + dim + count + rest;
    assert b[..4] == magic && b[4..8] == dim && b[8..16] == count && b[16..] == rest;
  }

  /** A file written is read back with the same ids, order and bits, whatever follows it. */
  lemma FileRoundTrip(rows: Rows, tail: seq<Byte>)
    requires Representable(rows)
    ensures Decode(Encode(rows) + tail) == Some(rows)
  {
    PowersOf256();
    LeRoundTrip(MAGIC, 4);
    LeRoundTrip(DIM, 4);
    LeRoundTrip(|rows.ids|, 8);
    Assoc(Header(|rows.ids|), EncodeRows(rows), tail);
    DecodeParts(LeBytes(MAGIC, 4), LeBytes(DIM, 4), LeBytes(|rows.ids|, 8), EncodeRows(rows) + tail);
    RowsRoundTrip(rows, tail);
  }

  // ----- writing and reading -----

  lemma EncodeOne(id: nat, row: seq<nat>)
    requires |row| == DIM
    ensures Shaped(Rows([id], row)) && EncodeRows(Rows([id], row)) == LeBytes(id, 16) + FloatBytes(row)
  {
    assert row[..DIM] == row && [id][1..] == [] && row[DIM..] == [];
    assert EncodeRows(Rows([], [])) == [];
    Empties(LeBytes(id, 16) + FloatBytes(row));
  }

  lemma BehindAppended(rows: Rows, id: nat, row: seq<nat>)
    requires Shaped(rows) && |row| == DIM && rows.ids != []
    ensures
      var all := Rows(rows.ids + [id], rows.vectors + row);
      && Shaped(all) && all.ids[0] == rows.ids[0] && all.vectors[..DIM] == rows.vectors[..DIM]
      && Behind(all) == Rows(Behind(rows).ids + [id], Behind(rows).vectors + row)
  {
  }

  /** Writing one more row extends the encoding. */
  lemma {:induction false} EncodeSnoc(rows: Rows, id: nat, row: seq<nat>)
    requires Shaped(rows) && |row| == DIM
    ensures Shaped(Rows(rows.ids + [id], rows.vectors + row))
    ensures EncodeRows(Rows(rows.ids + [id], rows.vectors + row))
            == EncodeRows(rows) + (LeBytes(id, 16) + FloatBytes(row))
    decreases |rows.ids|
  {
    if rows.ids == [] {
      assert rows.ids + [id] == [id] && rows.vectors + row == row;
      EncodeOne(id, row);
      Empties(LeBytes(id, 16) + FloatBytes(row));
    } else {
      BehindAppended(rows, id, row);
      EncodeSnoc(Behind(rows), id, row);
      Assoc(LeBytes(rows.ids[0], 16) + FloatBytes(rows.vectors[..DIM]), EncodeRows(Behind(rows)),
            LeBytes(id, 16) + FloatBytes(row));
    }
  }

  ghost function FirstRows(rows: Rows, i: nat): (r: Rows)
    requires Shaped(rows) && i <= |rows.ids|
    ensures Shaped(r)
  {
    Rows(rows.ids[..i], rows.vectors[..i * DIM])
  }

  lemma FirstRowsStep(rows: Rows, i: nat)
    requires Shaped(rows) && i < |rows.ids|
    ensures EncodeRows(FirstRows(rows, i + 1)) ==
            EncodeRows(FirstRows(rows, i)) +
            (LeBytes(rows.ids[i], 16) + FloatBytes(rows.vectors[i * DIM..(i + 1) * DIM]))
  {
    var done, row := FirstRows(rows, i), rows.vectors[i * DIM..(i + 1) * DIM];
    EncodeSnoc(done, rows.ids[i], row);
    assert rows.ids[..i + 1] == done.ids + [rows.ids[i]] && rows.vectors[..(i + 1) * DIM] == done.vectors + row;
  }

  lemma AssocThree<T>(a: seq<T>, b: seq<T>, c: seq<T>, d: seq<T>)
    ensures a + b + c + d == a + (b + (c + d))
  {
  }

  lemma Fours(n: nat, at: nat)
    requires n % 4 == 0 && at % 4 == 0 && at < n
    ensures at + 4 <= n && (at + 4) % 4 == 0 && (n - at) % 4 == 0 && (n - at - 4) % 4 == 0
  {
  }

  lemma FloatsFront(b: seq<Byte>)
    requires |b| % 4 == 0 && b != []
    ensures |b| >= 4 && |b[4..]| % 4 == 0 && Floats(b) == [FromLe(b[..4])] + Floats(b[4..])
  {
  }

  lemma FloatsStep(r: seq<nat>, b: seq<Byte>, at: nat)
    requires |b| % 4 == 0 && at % 4 == 0 && at < |b|
    ensures at + 4 <= |b| && |b[at..]| % 4 == 0 && |b[at + 4..]| % 4 == 0
    ensures r + Floats(b[at..]) == r + [FromLe(b[at..at + 4])] + Floats(b[at + 4..])
  {
    Fours(|b|, at);
    FloatsFront(b[at..]);
    assert b[at..][..4] == b[at..at + 4] && b[at..][4..] == b[at + 4..];
    Assoc(r, [FromLe(b[at..at + 4])], Floats(b[at + 4..]));
  }

  /** The bytes `flush` writes. */
  method WriteFile(rows: Rows) returns (b: seq<Byte>)
    requires Shaped(rows)
    ensures b == Encode(rows)
  {
    b := Header(|rows.ids|);
    for i := 0 to |rows.ids|
      invariant b == Header(|rows.ids|) + EncodeRows(FirstRows(rows, i))
    {
      FirstRowsStep(rows, i);
      var id, row := LeBytes(rows.ids[i], 16), FloatBytes(rows.vectors[i * DIM..(i + 1) * DIM]);
      AssocThree(Header(|rows.ids|), EncodeRows(FirstRows(rows, i)), id, row);
      b := b + id;
      b := b + row;
    }
    assert FirstRows(rows, |rows.ids|) == rows;
  }

  /** The bits of a row, four bytes at a time. */
  method ReadFloats(b: seq<Byte>) returns (r: seq<nat>)
    requires |b| % 4 == 0
    ensures r == Floats(b)
  {
    r := [];
    var at := 0;
    while at < |b|
      invariant at <= |b| && at % 4 == 0 && |b[at..]| % 4 == 0 && r + Floats(b[at..]) == Floats(b)
    {
      FloatsStep(r, b, at);
      Fours(|b|, at);
      r := r + [FromLe(b[at..at + 4])];
      at := at + 4;
    }
  }

  /** One row read off the front. */
  lemma ReadStep(read: Rows, b: seq<Byte>, count: nat)
    requires count > 0
    ensures |b| < ROW ==> Completed(read, DecodeRows(b, count)) == None
    ensures |b| >= ROW ==>
      var next := Rows(read.ids + [FromLe(b[..16])], read.vectors + Floats(b[16..ROW]));
      Completed(read, DecodeRows(b, count)) == Completed(next, DecodeRows(b[ROW..], count - 1))
  {
    if |b| >= ROW {
      var id, row := [FromLe(b[..16])], Floats(b[16..ROW]);
      match DecodeRows(b[ROW..], count - 1) {
        case None =>
        case Some(more) =>
          assert read.ids + id + more.ids == read.ids + (id + more.ids);
          assert read.vectors + row + more.vectors == read.vectors + (row + more.vectors);
      }
    }
  }

  /** The same, at an offset into the file. */
  lemma ReadAt(read: Rows, b: seq<Byte>, at: nat, count: nat)
    requires count > 0 && at <= |b|
    ensures |b| - at < ROW ==> Completed(read, DecodeRows(b[at..], count)) == None
    ensures |b| - at >= ROW ==>
      var next := Rows(read.ids + [FromLe(b[at..at + 16])], read.vectors + Floats(b[at + 16..at + ROW]));
      Completed(read, DecodeRows(b[at..], count)) == Completed(next, DecodeRows(b[at + ROW..], count - 1))
  {
    ReadStep(read, b[at..], count);
    if |b| - at >= ROW {
      assert b[at..][..16] == b[at..at + 16] && b[at..][16..ROW] == b[at + 16..at + ROW];
      assert b[at..][ROW..] == b[at + ROW..];
    }
  }

  lemma CompletedEnds(rows: Rows, rest: Option<Rows>)
    ensures Completed(Rows([], []), rest) == rest && Completed(rows, Some(Rows([], []))) == Some(rows)
  {
    if rest.Some? {
      assert [] + rest.value.ids == rest.value.ids && [] + rest.value.vectors == rest.value.vectors;
    }
    assert rows.ids + [] == rows.ids && rows.vectors + [] == rows.vectors;
  }

  /** One row at an offset into the file, appended to the rows read so far; `None` when the bytes run out. */
  method ReadRow(b: seq<Byte>, at: nat, read: Rows, ghost count: nat) returns (r: Option<Rows>)
    requires at <= |b| && count > 0
    ensures r.None? ==> Completed(read, DecodeRows(b[at..], count)) == None
    ensures r.Some? ==>
      && at + ROW <= |b|
      && Completed(read, DecodeRows(b[at..], count)) == Completed(r.value, DecodeRows(b[at + ROW..], count - 1))
  {
    ReadAt(read, b, at, count);
    if |b| - at < ROW {
      return None;
    }
    var row := ReadFloats(b[at + 16..at + ROW]);
    return Some(Rows(read.ids + [FromLe(b[at..at + 16])], read.vectors + row));
  }

  /** The rows behind the header. */
  method ReadRows(b: seq<Byte>, count: nat) returns (r: Option<Rows>)
    requires 16 <= |b|
    ensures r == DecodeRows(b[16..], count)
  {
    var rows, at := Rows([], []), 16;
    CompletedEnds(rows, DecodeRows(b[16..], count));
    for i := 0 to count
      invariant 16 <= at <= |b|
      invariant Completed(rows, DecodeRows(b[at..], count - i)) == DecodeRows(b[16..], count)
    {
      var next := ReadRow(b, at, rows, count - i);
      if next.None? {
        return None;
      }
      rows, at := next.value, at + ROW;
    }
    CompletedEnds(rows, None);
    return Some(rows);
  }

  /** `load_file`. */
  method LoadFile(b: seq<Byte>) returns (r: Option<Rows>)
    ensures r == Decode(b)
  {
    if |b| < 4 || FromLe(b[..4]) != MAGIC {
      return None;
    }
    if |b| < 8 || FromLe(b[4..8]) != DIM {
      return None;
    }
    if |b| < 16 {
      return None;
    }
    r := ReadRows(b, FromLe(b[8..16]));
  }
}
