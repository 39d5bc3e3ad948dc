/** The key chunking of utils.py (`split_json`): the keys of a JSON object,
    in order, are cut into consecutive chunks of `chunk_size`, and chunk `i`
    (numbered from 1) becomes file `i.json` holding those keys with their
    values. */
module SplitJson {
  import opened Results

  function Min(a: int, b: int): int {
    if a < b then a else b
  }

  /** `[keys[i:i + size] for i in range(0, len(keys), size)]`, written as a
      recursion; `ChunkIsSlice` connects it to the comprehension. */
  function Chunks<K>(keys: seq<K>, size: nat): seq<seq<K>>
    requires size > 0
    decreases |keys|
  {
    if |keys| == 0 then []
    else if |keys| <= size then [keys]
    else [keys[..size]] + Chunks(keys[size..], size)
  }

  function Flatten<K>(chunks: seq<seq<K>>): seq<K>
    decreases |chunks|
  {
    if |chunks| == 0 then [] else chunks[0] + Flatten(chunks[1..])
  }

  /** Concatenating the chunks in order gives back the key list. */
  lemma {:induction false} FlattenChunks<K>(keys: seq<K>, size: nat)
    requires size > 0
    ensures Flatten(Chunks(keys, size)) == keys
    decreases |keys|
  {
    if |keys| > size {
      FlattenChunks(keys[size..], size);
      var cs := Chunks(keys, size);
      assert cs[1..] == Chunks(keys[size..], size);
      assert keys[..size] + keys[size..] == keys;
    } else if |keys| > 0 {
      assert Flatten([keys]) == keys + Flatten([]);
    }
  }

  /** Chunk shapes: each chunk is non-empty and at most `size` long, all but
      the last are exactly `size` long, and the count is ⌈n / size⌉, stated
      without division as (count - 1) * size < n <= count * size. */
  lemma {:induction false} ChunkShapes<K>(keys: seq<K>, size: nat)
    requires size > 0
    ensures var cs := Chunks(keys, size);
            && (forall i :: 0 <= i < |cs| ==> 0 < |cs[i]| <= size)
            && (forall i :: 0 <= i < |cs| - 1 ==> |cs[i]| == size)
            && (|cs| == 0 <==> |keys| == 0)
            && |keys| <= |cs| * size
            && (|cs| > 0 ==> (|cs| - 1) * size < |keys|)
    decreases |keys|
  {
    var cs := Chunks(keys, size);
    if |keys| > size {
      var rest := Chunks(keys[size..], size);
      ChunkShapes(keys[size..], size);
      assert cs[1..] == rest;
      assert forall i :: 1 <= i < |cs| ==> cs[i] == rest[i - 1];
      assert |cs| * size == |rest| * size + size;
    }
  }

  /** Chunk `i` is the slice `keys[i * size : i * size + size]` of the
      source's comprehension (Python clips the end at `len(keys)`). */
  lemma {:induction false} ChunkIsSlice<K>(keys: seq<K>, size: nat, i: nat)
    requires size > 0
    requires i < |Chunks(keys, size)|
    ensures i * size < |keys|
    ensures Chunks(keys, size)[i] == keys[i * size .. Min(i * size + size, |keys|)]
    decreases |keys|
  {
    var cs := Chunks(keys, size);
    if i > 0 {
      assert |keys| > size;
      assert cs[i] == Chunks(keys[size..], size)[i - 1];
      ChunkIsSlice(keys[size..], size, i - 1);
      assert i * size == (i - 1) * size + size;
      var lo, hi := (i - 1) * size, Min((i - 1) * size + size, |keys| - size);
      assert |keys[size..][lo..hi]| == |keys[lo + size .. hi + size]|;
      assert forall j :: 0 <= j < hi - lo ==> keys[size..][lo..hi][j] == keys[lo + size .. hi + size][j];
      assert keys[size..][lo..hi] == keys[lo + size .. hi + size];
    }
  }

  /** Distinct keys never share two chunks. */
  lemma ChunksDisjoint<K>(keys: seq<K>, size: nat, a: nat, b: nat, k: K)
    requires size > 0
    requires forall i, j :: 0 <= i < j < |keys| ==> keys[i] != keys[j]
    requires a < |Chunks(keys, size)| && b < |Chunks(keys, size)|
    requires k in Chunks(keys, size)[a] && k in Chunks(keys, size)[b]
    ensures a == b
  {
    var cs := Chunks(keys, size);
    ChunkIsSlice(keys, size, a);
    ChunkIsSlice(keys, size, b);
    var x :| 0 <= x < |cs[a]| && cs[a][x] == k;
    var y :| 0 <= y < |cs[b]| && cs[b][y] == k;
    assert keys[a * size + x] == keys[b * size + y];
    SameBlock(a, b, x, y, size);
  }

  /** Positions in the same place of the `size`-blocks are in the same block. */
  lemma SameBlock(a: nat, b: nat, x: nat, y: nat, size: nat)
    requires x < size && y < size
    requires a * size + x == b * size + y
    ensures a == b
  {
    assert (a - b) * size == y - x;
    MultipleBounds(a - b, size);
  }

  lemma MultipleBounds(d: int, size: nat)
    ensures d >= 1 ==> d * size >= size
    ensures d <= -1 ==> d * size <= 0 - size as int
  {
    if d >= 1 {
      assert (d - 1) * size >= 0;
    }
    if d <= -1 {
      assert (-d - 1) * size >= 0;
    }
  }

  lemma {:induction false} InFlatten<K>(chunks: seq<seq<K>>, k: K)
    requires k in Flatten(chunks)
    ensures exists i :: 0 <= i < |chunks| && k in chunks[i]
    decreases |chunks|
  {
    if k !in chunks[0] {
      InFlatten(chunks[1..], k);
      var i :| 0 <= i < |chunks[1..]| && k in chunks[1..][i];
      assert k in chunks[i + 1];
    }
  }

  datatype SplitError = ZeroChunkSize  // `range()` with a step of 0 raises

  /** The chunk size `split_json` uses when its caller gives none. */
  const DefaultChunkSize: nat := 8

  /** The key order of a dict: its keys, each once. */
  ghost predicate IsKeyOrder<K(!new), V>(keys: seq<K>, data: map<K, V>) {
    && (forall k :: k in data <==> k in keys)
    && (forall i, j :: 0 <= i < j < |keys| ==> keys[i] != keys[j])
  }

  /** The numbers `enumerate(chunks, start=1)` gives. */
  function FileNumbers(n: nat): (r: set<nat>)
    ensures forall i :: i in r <==> 1 <= i <= n
  {
    if n == 0 then {} else FileNumbers(n - 1) + {n}
  }

  lemma ElementsOfChunks<K>(keys: seq<K>, size: nat)
    requires size > 0
    ensures forall i, k :: 0 <= i < |Chunks(keys, size)| && k in Chunks(keys, size)[i] ==> k in keys
  {
    forall i, k | 0 <= i < |Chunks(keys, size)| && k in Chunks(keys, size)[i]
      ensures k in keys
    {
      ChunkIsSlice(keys, size, i);
    }
  }

  /** `{key: data[key] for key in chunk}`. */
  function ChunkObject<K(!new), V>(data: map<K, V>, chunk: seq<K>): (m: map<K, V>)
    requires forall k :: k in chunk ==> k in data
    ensures forall k :: k in m <==> k in chunk
    ensures forall k :: k in m ==> m[k] == data[k]
  {
    map k | k in chunk :: data[k]
  }

  /** The files written: file number to its JSON object. */
  function SplitFiles<K(!new), V>(keys: seq<K>, data: map<K, V>, size: int): (r: Result<map<nat, map<K, V>>, SplitError>)
    requires IsKeyOrder(keys, data)
    ensures r.Err? <==> size == 0
    ensures size < 0 ==> r == Ok(map[])
    ensures size > 0 ==>
              && (forall i :: i in r.value <==> 1 <= i <= |Chunks(keys, size)|)
              && (forall i :: i in r.value ==> forall k :: k in r.value[i] <==> k in Chunks(keys, size)[i - 1])
              && (forall i, k :: i in r.value && k in r.value[i] ==> k in data && r.value[i][k] == data[k])
  {
    if size == 0 then Err(ZeroChunkSize)
    else if size < 0 then Ok(map[])
    else
      var cs := Chunks(keys, size);
      ElementsOfChunks(keys, size);
      Ok(map i | i in FileNumbers(|cs|) :: ChunkObject(data, cs[i - 1]))
  }

  /** Every key of `data` lands in some written file. */
  lemma SplitFilesCover<K(!new), V>(keys: seq<K>, data: map<K, V>, size: int)
    requires IsKeyOrder(keys, data)
    requires size > 0
    ensures var files := SplitFiles(keys, data, size).value;
            forall k :: k in data ==> exists i :: i in files && k in files[i]
  {
    var files := SplitFiles(keys, data, size).value;
    var cs := Chunks(keys, size);
    FlattenChunks(keys, size);
    forall k | k in data
      ensures exists i :: i in files && k in files[i]
    {
      assert k in Flatten(cs);
      InFlatten(cs, k);
      var c :| 0 <= c < |cs| && k in cs[c];
      assert 1 + c in files && k in files[1 + c];
    }
  }

  /** No key is written to two files. */
  lemma SplitFilesDisjoint<K(!new), V>(keys: seq<K>, data: map<K, V>, size: int)
    requires IsKeyOrder(keys, data)
    requires size > 0
    ensures var files := SplitFiles(keys, data, size).value;
            forall i, j, k :: i in files && j in files && k in files[i] && k in files[j] ==> i == j
  {
    var files := SplitFiles(keys, data, size).value;
    var cs := Chunks(keys, size);
    forall i, j, k | i in files && j in files && k in files[i] && k in files[j]
      ensures i == j
    {
      assert k in cs[i - 1] && k in cs[j - 1];
      ChunksDisjoint(keys, size, i - 1, j - 1, k);
    }
  }

  /** Every key of `data` lands in exactly one written file. */
  lemma SplitFilesPartition<K(!new), V>(keys: seq<K>, data: map<K, V>, size: int)
    requires IsKeyOrder(keys, data)
    requires size > 0
    ensures var files := SplitFiles(keys, data, size).value;
            && (forall k :: k in data ==> exists i :: i in files && k in files[i])
            && (forall i, j, k :: i in files && j in files && k in files[i] && k in files[j] ==> i == j)
  {
    SplitFilesCover(keys, data, size);
    SplitFilesDisjoint(keys, data, size);
  }
}
