/** Which files brain/src/embed_store.rs accepts. */
module FileExact {
  import opened Numbers
  import opened Sequences
  import opened EmbedFile

  /** Little-endian numbers fit their width, and writing one back gives the bytes it was read from. */
  lemma {:induction false} LeReadBack(b: seq<Byte>)
    ensures FromLe(b) < Pow256(|b|) && LeBytes(FromLe(b), |b|) == b
  {
    if b != [] {
      LeReadBack(b[1..]);
      var n := FromLe(b);
      assert n % 256 == b[0] && n / 256 == FromLe(b[1..]);
      assert b == [b[0]] + b[1..];
    }
  }

  lemma {:induction false} FloatsReadBack(b: seq<Byte>)
    requires |b| % 4 == 0
    ensures Fit(Floats(b), Pow256(4)) && FloatBytes(Floats(b)) == b
  {
    if b != [] {
      FloatsFront(b);
      FloatsReadBack(b[4..]);
      LeReadBack(b[..4]);
      var first, rest := [FromLe(b[..4])], Floats(b[4..]);
      assert (first + rest)[1..] == rest && b == b[..4] + b[4..];
    }
  }

  lemma FitsJoin(a: seq<nat>, b: seq<nat>, bound: nat)
    requires Fit(a, bound) && Fit(b, bound)
    ensures Fit(a + b, bound)
  {
  }

  /** One row in front of others. */
  lemma EncodeFront(id: nat, row: seq<nat>, rest: Rows)
    requires |row| == DIM && Shaped(rest)
    ensures
      var all := Rows([id] + rest.ids, row + rest.vectors);
      Shaped(all) && EncodeRows(all) == LeBytes(id, 16) + FloatBytes(row) + EncodeRows(rest)
  {
    var all := Rows([id] + rest.ids, row + rest.vectors);
    assert all.ids[1..] == rest.ids && all.vectors[DIM..] == rest.vectors && all.vectors[..DIM] == row;
  }

  lemma InThree<T>(b: seq<T>, i: nat, j: nat, rest: seq<T>, tail: seq<T>)
    requires i <= j <= |b| && b[j..] == rest + tail
    ensures b == b[..i] + b[i..j] + rest + tail
  {
  }

  /** Rows that are read were written: the bytes begin with their encoding. */
  lemma {:induction false} RowsExact(b: seq<Byte>, count: nat) returns (tail: seq<Byte>)
    requires DecodeRows(b, count).Some?
    ensures
      var rows := DecodeRows(b, count).value;
      Fit(rows.ids, Pow256(16)) && Fit(rows.vectors, Pow256(4)) && b == EncodeRows(rows) + tail
    decreases count
  {
    if count == 0 {
      tail := b;
      Empties(b);
    } else {
      tail := RowsExact(b[ROW..], count - 1);
      var rest := DecodeRows(b[ROW..], count - 1).value;
      RowExact(b, rest, tail);
    }
  }

  lemma RowExact(b: seq<Byte>, rest: Rows, tail: seq<Byte>)
    requires |b| >= ROW && Shaped(rest) && Fit(rest.ids, Pow256(16)) && Fit(rest.vectors, Pow256(4))
    requires b[ROW..] == EncodeRows(rest) + tail
    ensures
      var rows := Rows([FromLe(b[..16])] + rest.ids, Floats(b[16..ROW]) + rest.vectors);
      && Shaped(rows) && Fit(rows.ids, Pow256(16)) && Fit(rows.vectors, Pow256(4))
      && b == EncodeRows(rows) + tail
  {
    var id, row := FromLe(b[..16]), Floats(b[16..ROW]);
    LeReadBack(b[..16]);
    FloatsReadBack(b[16..ROW]);
    FitsJoin([id], rest.ids, Pow256(16));
    FitsJoin(row, rest.vectors, Pow256(4));
    EncodeFront(id, row, rest);
    InThree(b, 16, ROW, EncodeRows(rest), tail);
  }

  /** A file is accepted, and as these rows, if and only if it begins with the encoding of them. */
  lemma DecodeIff(b: seq<Byte>, rows: Rows)
    ensures Decode(b) == Some(rows)
       <==> Representable(rows) && exists tail :: b == Encode(rows) + tail
  {
    if Decode(b) == Some(rows) {
      var tail := DecodeExact(b, rows);
      assert b == Encode(rows) + tail;
    }
    if Representable(rows) {
      forall tail | b == Encode(rows) + tail
        ensures Decode(b) == Some(rows)
      {
        FileRoundTrip(rows, tail);
      }
    }
  }

  lemma DecodeExact(b: seq<Byte>, rows: Rows) returns (tail: seq<Byte>)
    requires Decode(b) == Some(rows)
    ensures Representable(rows) && b == Encode(rows) + tail
  {
    tail := RowsExact(b[16..], FromLe(b[8..16]));
    LeReadBack(b[..4]);
    LeReadBack(b[4..8]);
    LeReadBack(b[8..16]);
    HeaderExact(b, |rows.ids|);
    Assoc(Header(|rows.ids|), EncodeRows(rows), tail);
    assert b == b[..16] + b[16..];
  }

  lemma HeaderExact(b: seq<Byte>, count: nat)
    requires |b| >= 16 && LeBytes(MAGIC, 4) == b[..4] && LeBytes(DIM, 4) == b[4..8] && LeBytes(count, 8) == b[8..16]
    ensures b[..16] == Header(count)
  {
  }

  lemma LeCons(n: nat, k: nat)
    ensures LeBytes(n, k + 1) == [n % 256] + LeBytes(n / 256, k)
  {
  }

  /** The first four bytes of a number, whose quotients by 256 are `a`, `b`, `c` and `d`. */
  lemma FourBytes(n: nat, a: nat, b: nat, c: nat, d: nat, k: nat)
    requires n / 256 == a && a / 256 == b && b / 256 == c && c / 256 == d
    ensures LeBytes(n, k + 4) == [n % 256, a % 256, b % 256, c % 256] + LeBytes(d, k)
  {
    LeCons(n, k + 3);
    LeCons(a, k + 2);
    LeCons(b, k + 1);
    LeCons(c, k);
  }

  lemma MagicBytes()
    ensures LeBytes(MAGIC, 4) == [0x31, 0x42, 0x54, 0x44]
  {
    FourBytes(MAGIC, 0x44_5442, 0x4454, 0x44, 0, 0);
  }

  lemma DimBytes()
    ensures LeBytes(DIM, 4) == [0x80, 1, 0, 0]
  {
    FourBytes(DIM, 1, 0, 0, 0, 0);
  }

  lemma CountBytes()
    ensures LeBytes(258, 8) == [2, 1, 0, 0, 0, 0, 0, 0]
  {
    FourBytes(258, 1, 0, 0, 0, 4);
    FourBytes(0, 0, 0, 0, 0, 0);
  }

  lemma JoinThree<T>(a: seq<T>, b: seq<T>, c: seq<T>)
    requires |a| == |b| == 4 && |c| == 8
    ensures a + b + c
         == [a[0], a[1], a[2], a[3], b[0], b[1], b[2], b[3], c[0], c[1], c[2], c[3], c[4], c[5], c[6], c[7]]
  {
  }

  /** The bytes of the header of a file of 258 rows. */
  lemma HeaderBytes()
    ensures Header(258) == [0x31, 0x42, 0x54, 0x44, 0x80, 1, 0, 0, 2, 1, 0, 0, 0, 0, 0, 0]
  {
    MagicBytes();
    DimBytes();
    CountBytes();
    JoinThree(LeBytes(MAGIC, 4), LeBytes(DIM, 4), LeBytes(258, 8));
  }
}
