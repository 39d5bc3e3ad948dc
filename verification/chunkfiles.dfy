/** The next-chunk-file chooser of utils.py (`verify_and_find_next_json`):
    among the names `<digits>.json` of a directory listing it picks the
    smallest missing chunk index, and reports a complete directory of 54
    chunks with `None`. Only ASCII digits are modelled. */
module ChunkFiles {
  import opened Results

  const JsonSuffix: string := ".json"

  /** The index at which the chunk directory counts as complete. */
  const LastChunk: nat := 54

  predicate IsDigit(c: char) {
    '0' <= c <= '9'
  }

  /** `str.isdigit()`: non-empty and digits only. */
  predicate IsDigits(s: string) {
    |s| > 0 && forall i :: 0 <= i < |s| ==> IsDigit(s[i])
  }

  /** `int()` of a digit string (leading zeros allowed). */
  function DigitsValue(s: string): nat
    requires forall i :: 0 <= i < |s| ==> IsDigit(s[i])
    decreases |s|
  {
    if |s| == 0 then 0
    else
      assert IsDigit(s[|s| - 1]);
      10 * DigitsValue(s[..|s| - 1]) + (s[|s| - 1] as int - '0' as int)
  }

  /** `str()` of a natural number: `DigitsValue` reads it back, and there is
      no leading zero except in "0" itself. */
  function NatToDigits(n: nat): (s: string)
    ensures IsDigits(s)
    ensures DigitsValue(s) == n
    ensures s[0] == '0' ==> s == "0"
    decreases n
  {
    var last := ('0' as int + n % 10) as char;
    if n < 10 then [last]
    else
      var prefix := NatToDigits(n / 10);
      assert (prefix + [last])[..|prefix|] == prefix;
      prefix + [last]
  }

  /** The filter of the source: ends in ".json" and the stem is all digits. */
  predicate IsChunkName(f: string) {
    && |f| >= |JsonSuffix|
    && f[|f| - |JsonSuffix|..] == JsonSuffix
    && IsDigits(f[..|f| - |JsonSuffix|])
  }

  function ChunkIndex(f: string): nat
    requires IsChunkName(f)
  {
    DigitsValue(f[..|f| - |JsonSuffix|])
  }

  /** `f"{i}.json"`: a chunk name whose index is `i`. */
  function ChunkName(i: nat): (f: string)
    ensures IsChunkName(f)
    ensures ChunkIndex(f) == i
    ensures f[0] == '0' ==> i == 0
  {
    var stem := NatToDigits(i);
    assert (stem + JsonSuffix)[..|stem|] == stem;
    assert (stem + JsonSuffix)[|stem|..] == JsonSuffix;
    stem + JsonSuffix
  }

  /** Some valid chunk file of the listing has index `j`. */
  ghost predicate Taken(files: seq<string>, j: nat) {
    exists f :: f in files && IsChunkName(f) && ChunkIndex(f) == j
  }

  /** `json_indices`: the indices of the valid names, in listing order (the
      source sorts them, which changes neither membership nor maximum). */
  function ChunkIndices(files: seq<string>): (indices: seq<nat>)
    ensures forall j :: j in indices <==> Taken(files, j)
    decreases |files|
  {
    if |files| == 0 then []
    else
      var rest := ChunkIndices(files[1..]);
      assert forall f :: f in files[1..] ==> f in files;
      assert forall f :: f in files ==> f == files[0] || f in files[1..];
      if IsChunkName(files[0]) then [ChunkIndex(files[0])] + rest else rest
  }

  function MaxOf(indices: seq<nat>): (m: nat)
    requires |indices| > 0
    ensures m in indices
    ensures forall j :: j in indices ==> j <= m
    decreases |indices|
  {
    if |indices| == 1 then indices[0]
    else
      var m := MaxOf(indices[1..]);
      assert forall j :: j in indices ==> j == indices[0] || j in indices[1..];
      if indices[0] < m then m else indices[0]
  }

  /** The loop `for i in range(lo, hi + 1)` that returns the first `i` not
      among the indices. */
  function FirstMissing(indices: seq<nat>, lo: nat, hi: nat): (r: Option<nat>)
    ensures r.Some? ==> lo <= r.value <= hi && r.value !in indices
    ensures r.Some? ==> forall j :: lo <= j < r.value ==> j in indices
    ensures r.None? ==> forall j :: lo <= j <= hi ==> j in indices
    decreases hi + 1 - lo
  {
    if lo > hi then None
    else if lo !in indices then Some(lo)
    else FirstMissing(indices, lo + 1, hi)
  }

  /** The choice made from the index list: 1 for no index; otherwise the
      smallest missing index in 1..max; otherwise `None` when max is 54 and
      max + 1 when it is not. Together: the smallest positive index not
      taken, except that a complete set 1..54 with nothing above it gives
      `None`. */
  function NextIndex(indices: seq<nat>): (r: Option<nat>)
    ensures r.Some? ==> r.value >= 1 && r.value !in indices && forall j :: 1 <= j < r.value ==> j in indices
    ensures r.None? <==>
              && |indices| > 0
              && (forall j :: j in indices ==> j <= LastChunk)
              && (forall j :: 1 <= j <= LastChunk ==> j in indices)
  {
    if |indices| == 0 then Some(1)
    else
      var m := MaxOf(indices);
      match FirstMissing(indices, 1, m)
      case Some(i) => Some(i)
      case None => if m == LastChunk then None else Some(m + 1)
  }

  /** The chooser depends on the index list only as a set. */
  lemma {:induction false} FirstMissingSameSet(a: seq<nat>, b: seq<nat>, lo: nat, hi: nat)
    requires forall j :: j in a <==> j in b
    ensures FirstMissing(a, lo, hi) == FirstMissing(b, lo, hi)
    decreases hi + 1 - lo
  {
    if lo <= hi && lo in a {
      FirstMissingSameSet(a, b, lo + 1, hi);
    }
  }

  lemma NextIndexSameSet(a: seq<nat>, b: seq<nat>)
    requires forall j :: j in a <==> j in b
    ensures NextIndex(a) == NextIndex(b)
  {
    if |a| > 0 {
      assert a[0] in b;
      var ma, mb := MaxOf(a), MaxOf(b);
      assert ma <= mb && mb <= ma;
      FirstMissingSameSet(a, b, 1, ma);
    }
  }

  /** `verify_and_find_next_json` on a directory listing. */
  function NextChunkFile(files: seq<string>): (r: Option<string>)
    ensures (forall f :: f in files ==> !IsChunkName(f)) ==> r == Some("1.json")
    ensures r.Some? ==> IsChunkName(r.value) && !Taken(files, ChunkIndex(r.value))
    ensures r.Some? ==> r.value[0] != '0'
    ensures r.Some? ==> ChunkIndex(r.value) >= 1 && forall j :: 1 <= j < ChunkIndex(r.value) ==> Taken(files, j)
    ensures r.None? <==>
              && (exists f :: f in files && IsChunkName(f))
              && (forall f :: f in files && IsChunkName(f) ==> ChunkIndex(f) <= LastChunk)
              && (forall j :: 1 <= j <= LastChunk ==> Taken(files, j))
  {
    var indices := ChunkIndices(files);
    assert NatToDigits(1) == "1";
    assert ChunkName(1) == "1.json";
    assert |indices| > 0 <==> exists f :: f in files && IsChunkName(f) by {
      if |indices| > 0 {
        assert Taken(files, indices[0]);
      }
      if exists f :: f in files && IsChunkName(f) {
        var f :| f in files && IsChunkName(f);
        assert Taken(files, ChunkIndex(f));
        assert ChunkIndex(f) in indices;
      }
    }
    assert (forall j :: j in indices ==> j <= LastChunk) <==>
           (forall f :: f in files && IsChunkName(f) ==> ChunkIndex(f) <= LastChunk) by {
      forall f | f in files && IsChunkName(f)
        ensures ChunkIndex(f) in indices
      {
        assert Taken(files, ChunkIndex(f));
      }
    }
    match NextIndex(indices)
    case None => None
    case Some(i) => Some(ChunkName(i))
  }

  /** Names other than `<digits>.json`, and the order of the listing, never
      influence the choice. */
  lemma OtherNamesIgnored(files1: seq<string>, files2: seq<string>)
    requires forall f :: IsChunkName(f) ==> (f in files1 <==> f in files2)
    ensures NextChunkFile(files1) == NextChunkFile(files2)
  {
    var a, b := ChunkIndices(files1), ChunkIndices(files2);
    forall j
      ensures j in a <==> j in b
    {
      if Taken(files1, j) {
        var f :| f in files1 && IsChunkName(f) && ChunkIndex(f) == j;
        assert f in files2;
      }
      if Taken(files2, j) {
        var f :| f in files2 && IsChunkName(f) && ChunkIndex(f) == j;
        assert f in files1;
      }
    }
    NextIndexSameSet(a, b);
  }
}
