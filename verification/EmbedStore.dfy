/** The embedding store of brain/src/embed_store.rs: flat arrays that stand for a map, kept in step with a file. */
module EmbedStore {
  import opened Numbers
  import opened Sequences
  import opened SetFacts
  import opened EmbedFile
  import TopK

  // ----- rows as a map -----

  ghost function RowAt(rows: Rows, i: nat): seq<nat>
    requires Shaped(rows) && i < |rows.ids|
  {
    rows.vectors[i * DIM..(i + 1) * DIM]
  }

  ghost function IndexOf(ids: seq<nat>, k: nat): (i: nat)
    requires k in ids
    ensures i < |ids| && ids[i] == k
  {
    var i: nat :| i < |ids| && ids[i] == k;
    i
  }

  /** The vector stored for each id. */
  ghost function AsMap(rows: Rows): map<nat, seq<nat>>
    requires Shaped(rows) && Distinct(rows.ids)
  {
    map k | k in rows.ids :: RowAt(rows, IndexOf(rows.ids, k))
  }

  ghost predicate Wellformed(rows: Rows) {
    Shaped(rows) && Distinct(rows.ids)
  }

  /** Overwrites the vector at position `pos`. */
  function Overwrite(rows: Rows, pos: nat, v: seq<nat>): Rows
    requires |rows.vectors| == |rows.ids| * DIM && pos < |rows.ids| && |v| == DIM
  {
    rows.(vectors := rows.vectors[..pos * DIM] + v + rows.vectors[(pos + 1) * DIM..])
  }

  function Append(rows: Rows, node: nat, v: seq<nat>): Rows {
    Rows(rows.ids + [node], rows.vectors + v)
  }

  function Delete(rows: Rows, pos: nat): Rows
    requires |rows.vectors| == |rows.ids| * DIM && pos < |rows.ids|
  {
    Rows(rows.ids[..pos] + rows.ids[pos + 1..], rows.vectors[..pos * DIM] + rows.vectors[(pos + 1) * DIM..])
  }

  lemma OverwriteRows(rows: Rows, pos: nat, v: seq<nat>, i: nat)
    requires Shaped(rows) && pos < |rows.ids| && |v| == DIM && i < |rows.ids|
    ensures Shaped(Overwrite(rows, pos, v))
    ensures RowAt(Overwrite(rows, pos, v), i) == if i == pos then v else RowAt(rows, i)
  {
  }

  lemma AppendRows(rows: Rows, node: nat, v: seq<nat>, i: nat)
    requires Shaped(rows) && |v| == DIM && i <= |rows.ids|
    ensures Shaped(Append(rows, node, v))
    ensures RowAt(Append(rows, node, v), i) == if i == |rows.ids| then v else RowAt(rows, i)
  {
  }

  lemma DeleteRows(rows: Rows, pos: nat, i: nat)
    requires Shaped(rows) && pos < |rows.ids| && i < |rows.ids| - 1
    ensures Shaped(Delete(rows, pos))
    ensures RowAt(Delete(rows, pos), i) == RowAt(rows, if i < pos then i else i + 1)
  {
  }

  lemma AsMapAt(rows: Rows, i: nat)
    requires Wellformed(rows) && i < |rows.ids|
    ensures rows.ids[i] in AsMap(rows) && AsMap(rows)[rows.ids[i]] == RowAt(rows, i)
  {
  }

  /** A map with the right keys and the right vector at each position is the map of the rows. */
  lemma AsMapIs(rows: Rows, m: map<nat, seq<nat>>)
    requires Wellformed(rows)
    requires forall k :: k in m <==> k in rows.ids
    requires forall i: nat :: i < |rows.ids| ==> m[rows.ids[i]] == RowAt(rows, i)
    ensures AsMap(rows) == m
  {
    forall k | k in m
      ensures k in AsMap(rows) && AsMap(rows)[k] == m[k]
    {
      var i: nat :| i < |rows.ids| && rows.ids[i] == k;
      AsMapAt(rows, i);
    }
  }

  lemma AsMapKeys(rows: Rows, k: nat)
    requires Wellformed(rows)
    ensures k in AsMap(rows) <==> k in rows.ids
  {
  }

  /** Overwriting replaces one vector of the map. */
  lemma OverwriteMaps(rows: Rows, pos: nat, v: seq<nat>)
    requires Wellformed(rows) && pos < |rows.ids| && |v| == DIM
    ensures Wellformed(Overwrite(rows, pos, v))
    ensures AsMap(Overwrite(rows, pos, v)) == AsMap(rows)[rows.ids[pos] := v]
  {
    var after, m := Overwrite(rows, pos, v), AsMap(rows)[rows.ids[pos] := v];
    forall k
      ensures k in m <==> k in after.ids
    {
      AsMapKeys(rows, k);
    }
    forall i: nat | i < |after.ids|
      ensures m[after.ids[i]] == RowAt(after, i)
    {
      OverwriteRows(rows, pos, v, i);
      AsMapAt(rows, i);
    }
    AsMapIs(after, m);
  }

  /** Appending adds one vector to the map. */
  lemma AppendMaps(rows: Rows, node: nat, v: seq<nat>)
    requires Wellformed(rows) && node !in rows.ids && |v| == DIM
    ensures Wellformed(Append(rows, node, v))
    ensures AsMap(Append(rows, node, v)) == AsMap(rows)[node := v]
  {
    var after, m := Append(rows, node, v), AsMap(rows)[node := v];
    forall k
      ensures k in m <==> k in after.ids
    {
      AsMapKeys(rows, k);
    }
    forall i: nat | i < |after.ids|
      ensures m[after.ids[i]] == RowAt(after, i)
    {
      AppendRows(rows, node, v, i);
      if i < |rows.ids| {
        AsMapAt(rows, i);
      }
    }
    AsMapIs(after, m);
  }

  lemma DeleteDistinct(rows: Rows, pos: nat)
    requires Wellformed(rows) && pos < |rows.ids|
    ensures Distinct(Delete(rows, pos).ids)
    ensures forall k :: k in Delete(rows, pos).ids <==> k in rows.ids && k != rows.ids[pos]
  {
    var ids, after := rows.ids, Delete(rows, pos).ids;
    assert ids == ids[..pos] + [ids[pos]] + ids[pos + 1..];
    assert forall i :: 0 <= i < |after| ==> after[i] == ids[if i < pos then i else i + 1];
  }

  /** Deleting takes one vector out of the map. */
  lemma DeleteMaps(rows: Rows, pos: nat)
    requires Wellformed(rows) && pos < |rows.ids|
    ensures Wellformed(Delete(rows, pos))
    ensures AsMap(Delete(rows, pos)) == AsMap(rows) - {rows.ids[pos]}
  {
    var after, m := Delete(rows, pos), AsMap(rows) - {rows.ids[pos]};
    DeleteDistinct(rows, pos);
    forall k
      ensures k in m <==> k in after.ids
    {
      AsMapKeys(rows, k);
    }
    forall i: nat | i < |after.ids|
      ensures m[after.ids[i]] == RowAt(after, i)
    {
      DeleteRows(rows, pos, i);
      AsMapAt(rows, if i < pos then i else i + 1);
    }
    AsMapIs(after, m);
  }

  // ----- the store -----

  /** What opening the store finds: a missing or unreadable file counts as empty. */
  ghost function Loaded(file: Option<seq<Byte>>): Rows {
    match file
    case None => Rows([], [])
    case Some(b) => match Decode(b) case None => Rows([], []) case Some(rows) => rows
  }

  ghost function PutAll(m: map<nat, seq<nat>>, items: seq<(nat, seq<nat>)>): map<nat, seq<nat>> {
    if items == [] then m else PutAll(m, items[..|items| - 1])[items[|items| - 1].0 := items[|items| - 1].1]
  }

  /** The ids after these items were put, in order: a new one goes to the end, a known one keeps its place. */
  ghost function PutIds(ids: seq<nat>, items: seq<(nat, seq<nat>)>): seq<nat> {
    if items == [] then ids
    else
      var before, node := PutIds(ids, items[..|items| - 1]), items[|items| - 1].0;
      if node in before then before else before + [node]
  }

  /** The ids without one of them, the others in their order. */
  function Without(ids: seq<nat>, node: nat): seq<nat> {
    if ids == [] then [] else Without(ids[..|ids| - 1], node) + if ids[|ids| - 1] == node then [] else [ids[|ids| - 1]]
  }

  lemma {:induction false} WithoutAbsent(ids: seq<nat>, node: nat)
    requires node !in ids
    ensures Without(ids, node) == ids
  {
    if ids != [] {
      WithoutAbsent(ids[..|ids| - 1], node);
    }
  }

  /** Taking out the position of an id is taking out the id. */
  lemma {:induction false} WithoutAt(ids: seq<nat>, pos: nat)
    requires Distinct(ids) && pos < |ids|
    ensures Without(ids, ids[pos]) == ids[..pos] + ids[pos + 1..]
  {
    var init, last := ids[..|ids| - 1], ids[|ids| - 1];
    if pos == |ids| - 1 {
      WithoutAbsent(init, last);
    } else {
      WithoutAt(init, pos);
      assert ids[pos + 1..] == init[pos + 1..] + [last];
    }
  }

  /** `ids.iter().position(..)`. */
  method Position(ids: seq<nat>, node: nat) returns (found: bool, pos: nat)
    ensures found == (node in ids) && (found ==> pos < |ids| && ids[pos] == node)
  {
    for i := 0 to |ids|
      invariant node !in ids[..i]
    {
      if ids[i] == node {
        return true, i;
      }
    }
    assert ids[..|ids|] == ids;
    return false, 0;
  }

  class Store {
    var ids: seq<nat>
    var vectors: seq<nat>
    var dirty: bool
    var file: Option<seq<Byte>>

    ghost function View(): Rows
      reads this
    {
      Rows(ids, vectors)
    }

    ghost predicate Valid()
      reads this
    {
      Wellformed(View()) && (!dirty ==> Loaded(file) == View())
    }

    /** Opens the store over an index file; it stands for a map just when the file holds no id twice. */
    constructor (file: Option<seq<Byte>>)
      ensures View() == Loaded(file) && !dirty && this.file == file
      ensures Valid() <==> Distinct(Loaded(file).ids)
    {
      this.file, dirty, ids, vectors := file, false, [], [];
      if file.Some? {
        var r := LoadFile(file.value);
        if r.Some? {
          ids, vectors := r.value.ids, r.value.vectors;
        }
      }
    }

    method Put(node: nat, v: seq<nat>)
      requires Wellformed(View()) && |v| == DIM
      modifies this`ids, this`vectors
      ensures Wellformed(View()) && AsMap(View()) == old(AsMap(View()))[node := v]
      ensures ids == if node in old(ids) then old(ids) else old(ids) + [node]
    {
      var found, pos := Position(ids, node);
      if found {
        OverwriteMaps(View(), pos, v);
        vectors := vectors[..pos * DIM] + v + vectors[(pos + 1) * DIM..];
      } else {
        AppendMaps(View(), node, v);
        ids := ids + [node];
        vectors := vectors + v;
      }
    }

    /** Inserts or overwrites one vector; the latest write wins, and an id keeps its place. */
    method Upsert(node: nat, v: seq<nat>) returns (ok: bool)
      requires Valid()
      modifies this`ids, this`vectors, this`dirty
      ensures Valid() && ok == (|v| == DIM)
      ensures ok ==> dirty && AsMap(View()) == old(AsMap(View()))[node := v]
      ensures ok ==> ids == if node in old(ids) then old(ids) else old(ids) + [node]
      ensures !ok ==> View() == old(View()) && dirty == old(dirty)
    {
      if |v| != DIM {
        return false;
      }
      Put(node, v);
      dirty := true;
      return true;
    }

    /** Bulk upsert: all items or none, in order. */
    method UpsertMany(items: seq<(nat, seq<nat>)>) returns (ok: bool)
      requires Valid()
      modifies this`ids, this`vectors, this`dirty
      ensures Valid() && ok == forall i :: 0 <= i < |items| ==> |items[i].1| == DIM
      ensures ok ==> dirty && AsMap(View()) == PutAll(old(AsMap(View())), items) && ids == PutIds(old(ids), items)
      ensures !ok ==> View() == old(View()) && dirty == old(dirty)
    {
      for i := 0 to |items|
        invariant forall j :: 0 <= j < i ==> |items[j].1| == DIM
      {
        if |items[i].1| != DIM {
          return false;
        }
      }
      for i := 0 to |items|
        invariant Wellformed(View()) && AsMap(View()) == PutAll(old(AsMap(View())), items[..i])
        invariant ids == PutIds(old(ids), items[..i])
      {
        assert items[..i + 1][..i] == items[..i];
        Put(items[i].0, items[i].1);
      }
      assert items[..|items|] == items;
      dirty := true;
      return true;
    }

    /** Removes one node; no-op if absent. */
    method Remove(node: nat) returns (removed: bool)
      requires Valid()
      modifies this`ids, this`vectors, this`dirty
      ensures Valid() && removed == (node in old(ids)) && dirty == (old(dirty) || removed)
      ensures AsMap(View()) == old(AsMap(View())) - {node} && ids == Without(old(ids), node)
      ensures !removed ==> View() == old(View())
    {
      var found, pos := Position(ids, node);
      if !found {
        AsMapKeys(View(), node);
        WithoutAbsent(ids, node);
        return false;
      }
      DeleteMaps(View(), pos);
      WithoutAt(ids, pos);
      ids := ids[..pos] + ids[pos + 1..];
      vectors := vectors[..pos * DIM] + vectors[(pos + 1) * DIM..];
      dirty := true;
      return true;
    }
  
    /**
     * The `k` best matches: the first of the ranking of all rows by descending dot product, ties by
     * position.  `value` reads a bit pattern as a number.
     */
    method Nearest(query: seq<nat>, k: nat, value: nat -> real) returns (heap: seq<TopK.Hit>, ghost ranking: seq<nat>)
      requires Valid()
      ensures |query| != DIM || k == 0 ==> heap == []
      ensures |query| == DIM && k > 0 ==>
        var scores := Scores(View(), query, value);
        && TopK.IsRanking(scores, |ids|, ranking) && Within(ranking, |ids|)
        && heap == TopK.HitsOf(ids, scores, ranking)[..Min(k, |ids|)]
    {
      heap, ranking := [], [];
      if |query| != DIM || k == 0 {
        return;
      }
      ghost var scores := Scores(View(), query, value);
      for i := 0 to |ids|
        invariant TopK.IsRanking(scores, i, ranking) && Within(ranking, |ids|)
        invariant heap == TopK.HitsOf(ids, scores, ranking)[..Min(k, i)]
      {
        var dot := DotProduct(vectors[i * DIM..(i + 1) * DIM], query, value);
        var hit := TopK.Hit(ids[i], dot);
        ranking := TopK.OfferNext(ids, scores, i, ranking, k);
        heap := TopK.Offer(heap, hit, k);
      }
    }

    /**
     * Writes pending changes: to a temporary file first, then the old index is removed and the new one
     * renamed into place.  Only a flush that gets through clears the dirty mark, and then opening the file
     * finds these very rows.
     */
    method Flush(outcome: Outcome) returns (ok: bool)
      requires Valid() && Representable(View())
      modifies this`file, this`dirty
      ensures Valid() && ok == (!old(dirty) || outcome.Done?)
      ensures ok ==> !dirty && Loaded(file) == View()
      ensures !old(dirty) ==> file == old(file)
      ensures !ok ==> dirty && (file == old(file) || file == None)
    {
      if !dirty {
        return true;
      }
      if outcome.WriteFailed? {
        return false;
      }
      var bytes := WriteFile(Rows(ids, vectors));
      file := None;
      if outcome.RenameFailed? {
        return false;
      }
      file := Some(bytes);
      dirty := false;
      FileRoundTrip(View(), []);
      assert bytes + [] == bytes;
      return true;
    }
  }

  /** Where a flush stops. */
  datatype Outcome = WriteFailed | RenameFailed | Done

  // ----- scores -----

  ghost function Dot(row: seq<nat>, query: seq<nat>, value: nat -> real): real
    requires |row| == |query|
  {
    if row == [] then 0.0
    else Dot(row[..|row| - 1], query[..|row| - 1], value) + value(row[|row| - 1]) * value(query[|row| - 1])
  }

  ghost function Scores(rows: Rows, query: seq<nat>, value: nat -> real): (s: seq<real>)
    requires Shaped(rows) && |query| == DIM
    ensures |s| == |rows.ids| && forall i :: 0 <= i < |s| ==> s[i] == Dot(RowAt(rows, i), query, value)
  {
    seq(|rows.ids|, i requires 0 <= i < |rows.ids| => Dot(RowAt(rows, i), query, value))
  }

  method DotProduct(row: seq<nat>, query: seq<nat>, value: nat -> real) returns (dot: real)
    requires |row| == |query|
    ensures dot == Dot(row, query, value)
  {
    dot := 0.0;
    for d := 0 to |row|
      invariant dot == Dot(row[..d], query[..d], value)
    {
      assert row[..d + 1][..d] == row[..d] && query[..d + 1][..d] == query[..d];
      dot := dot + value(row[d]) * value(query[d]);
    }
    assert row[..|row|] == row && query[..|row|] == query;
  }
}
