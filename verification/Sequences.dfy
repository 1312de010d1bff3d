/** Packing transactions into fixed-length token sequences (tfm_repo/src/ray_tokenize.py). */
module Sequences {
  import opened Seqs
  import opened Sorting

  const SEQ_LENGTH := 4096
  const SEQ_CHUNK_SIZE := 315
  const PAD := 0
  const BOS := 1
  const EOS := 2
  const SEP := 3

  datatype Txn = Txn(user: int, card: int, ts: int, ids: seq<int>)

  predicate TsLe(a: Txn, b: Txn) { a.ts <= b.ts }

  function IdsOf(t: Txn): seq<int> { t.ids }

  // ----- The order of time -----

  /** `group[np.argsort(ts, kind="stable")]`. */
  function ByTime(group: seq<Txn>): seq<Txn> {
    Sort(TsLe, group)
  }

  function At(ts: int): Txn -> bool { (t: Txn) => t.ts == ts }

  /** Oldest first, the same transactions, and those of one moment as they came. */
  ghost predicate InTime(group: seq<Txn>, ordered: seq<Txn>) {
    && multiset(ordered) == multiset(group)
    && (forall i, j :: 0 <= i < j < |ordered| ==> ordered[i].ts <= ordered[j].ts)
    && forall ts: int :: Filter(At(ts), ordered) == Filter(At(ts), group)
  }

  lemma {:induction false} SameFilter(p: Txn -> bool, q: Txn -> bool, s: seq<Txn>)
    requires forall t :: p(t) == q(t)
    ensures Filter(p, s) == Filter(q, s)
  {
    if s != [] { SameFilter(p, q, s[1..]); }
  }

  lemma {:induction false} StableOrder(group: seq<Txn>)
    ensures InTime(group, ByTime(group))
  {
    var ordered := ByTime(group);
    SortSorts(TsLe, group);
    SortPermutes(TsLe, group);
    forall i, j | 0 <= i < j < |ordered| ensures ordered[i].ts <= ordered[j].ts {
      assert TsLe(ordered[i], ordered[j]);
    }
    forall ts: int ensures Filter(At(ts), ordered) == Filter(At(ts), group) {
      var k := Txn(0, 0, ts, []);
      SortIsStable(TsLe, group, k);
      SameFilter(At(ts), Tied(TsLe, k), ordered);
      SameFilter(At(ts), Tied(TsLe, k), group);
    }
  }

  /** There is only one such order. */
  lemma {:induction false} TimeOrderUnique(group: seq<Txn>, a: seq<Txn>, b: seq<Txn>)
    requires InTime(group, a) && InTime(group, b)
    ensures a == b
    decreases |a|
  {
    PermutationLength(a, b);
    if a != [] {
      EarliestFirst(a, b);
      EarliestFirst(b, a);
      var ts := a[0].ts;
      assert Filter(At(ts), a)[0] == a[0] && Filter(At(ts), b)[0] == b[0];
      assert Filter(At(ts), a) == Filter(At(ts), b);
      TailInTime(a, b);
      TailInTime(a, a);
      TimeOrderUnique(a[1..], a[1..], b[1..]);
    }
  }

  lemma {:induction false} EarliestFirst(a: seq<Txn>, b: seq<Txn>)
    requires multiset(a) == multiset(b) && a != [] && b != []
    requires forall i, j :: 0 <= i < j < |a| ==> a[i].ts <= a[j].ts
    ensures a[0].ts <= b[0].ts
  {
    assert b[0] in multiset(a);
    var i :| 0 <= i < |a| && a[i] == b[0];
  }

  lemma {:induction false} TailInTime(a: seq<Txn>, b: seq<Txn>)
    requires InTime(a, b) && a != [] && b != [] && a[0] == b[0]
    ensures InTime(a[1..], b[1..])
  {
    SameTails(a, b);
    forall ts: int ensures Filter(At(ts), b[1..]) == Filter(At(ts), a[1..]) {
      assert Filter(At(ts), a) == Filter(At(ts), b);
      FilterTail(At(ts), a);
      FilterTail(At(ts), b);
    }
  }

  lemma {:induction false} FilterTail(p: Txn -> bool, s: seq<Txn>)
    requires s != []
    ensures Filter(p, s[1..]) == if p(s[0]) then Filter(p, s)[1..] else Filter(p, s)
  {}

  // ----- Encoding -----

  /** The tokens of the first `i` rows of a chunk, each but the chunk's last followed by a separator. */
  function Packed(rows: seq<seq<int>>, i: nat): seq<int>
    requires i <= |rows|
  {
    if i == 0 then []
    else Packed(rows, i - 1) + rows[i - 1] + (if i < |rows| then [SEP] else [])
  }

  function EncodeChunk(rows: seq<seq<int>>): seq<int> {
    [BOS] + Packed(rows, |rows|) + [EOS]
  }

  /** Cut to `n` tokens, or padded up to `n`. */
  function Fit(s: seq<int>, n: nat): (r: seq<int>)
    ensures |r| == n
  {
    seq(n, i => if 0 <= i < |s| then s[i] else PAD)
  }

  function Chunks(rows: seq<seq<int>>, size: nat): seq<seq<seq<int>>>
    requires size > 0
  {
    if rows == [] then []
    else if |rows| <= size then [rows]
    else [rows[..size]] + Chunks(rows[size..], size)
  }

  function EncodeAll(chunks: seq<seq<seq<int>>>, length: nat): seq<seq<int>> {
    if chunks == [] then [] else [Fit(EncodeChunk(chunks[0]), length)] + EncodeAll(chunks[1..], length)
  }

  /** One chunk's tokens before truncation. */
  method PackChunk(chunk: seq<seq<int>>) returns (tokens: seq<int>)
    ensures tokens == EncodeChunk(chunk)
  {
    tokens := [BOS];
    for i := 0 to |chunk|
      invariant tokens == [BOS] + Packed(chunk, i)
    {
      tokens := tokens + chunk[i];
      if i < |chunk| - 1 {
        tokens := tokens + [SEP];
      }
    }
    tokens := tokens + [EOS];
  }

  /** `np.full(seq_length, PAD)` followed by the slice assignment of the truncated tokens. */
  method PadChunk(tokens: seq<int>, length: nat) returns (arr: array<int>)
    ensures fresh(arr) && arr[..] == Fit(tokens, length)
  {
    arr := new int[length](_ => PAD);
    var m := if |tokens| < length then |tokens| else length;
    for i := 0 to m
      invariant forall j :: 0 <= j < i ==> arr[j] == tokens[j]
      invariant forall j :: i <= j < length ==> arr[j] == PAD
    {
      arr[i] := tokens[i];
    }
  }

  /** The sequences of a list of rows. */
  function Sequenced(rows: seq<seq<int>>, size: nat, length: nat): seq<seq<int>>
    requires size > 0
  {
    EncodeAll(Chunks(rows, size), length)
  }

  /** The loop of `build_sequences` over chunks. */
  method EncodeChunks(tok: seq<seq<int>>, length: nat, chunkSize: nat) returns (seqs: seq<seq<int>>)
    requires chunkSize > 0
    ensures seqs == Sequenced(tok, chunkSize, length)
  {
    seqs := [];
    var start := 0;
    while start < |tok|
      invariant 0 <= start && seqs + Sequenced(From(tok, start), chunkSize, length) == Sequenced(tok, chunkSize, length)
    {
      var end := if start + chunkSize < |tok| then start + chunkSize else |tok|;
      var tokens := PackChunk(tok[start..end]);
      var arr := PadChunk(tokens, length);
      ChunkStep(tok, start, chunkSize, length);
      seqs := seqs + [arr[..]];
      start := start + chunkSize;
    }
  }

  /** `build_sequences` for one group of transactions, taken in the order of time. */
  method BuildSequences(group: seq<Txn>, length: nat, chunkSize: nat)
    returns (seqs: seq<seq<int>>, ghost ordered: seq<Txn>)
    requires chunkSize > 0
    ensures InTime(group, ordered) && seqs == Sequenced(Map(IdsOf, ordered), chunkSize, length)
  {
    ordered := ByTime(group);
    StableOrder(group);
    seqs := EncodeChunks(Map(IdsOf, ByTime(group)), length, chunkSize);
  }

  function From<T>(s: seq<T>, i: nat): seq<T> {
    if i <= |s| then s[i..] else []
  }

  lemma {:induction false} ChunkStep(tok: seq<seq<int>>, start: nat, size: nat, length: nat)
    requires size > 0 && start < |tok|
    ensures var end := if start + size < |tok| then start + size else |tok|;
            Sequenced(From(tok, start), size, length)
            == [Fit(EncodeChunk(tok[start..end]), length)] + Sequenced(From(tok, start + size), size, length)
  {
    var rest := From(tok, start);
    if |rest| <= size {
      assert rest == tok[start..|tok|] && Chunks(rest, size)[1..] == [];
    } else {
      assert rest[..size] == tok[start..start + size] && rest[size..] == From(tok, start + size);
      assert ([rest[..size]] + Chunks(rest[size..], size))[1..] == Chunks(rest[size..], size);
    }
  }

  // ----- Decoding -----

  /** Reads rows of `width` tokens from `pos` on, by position only, until an end marker follows a row. */
  function DecodeFrom(s: seq<int>, width: nat, pos: nat): Option<seq<seq<int>>>
    decreases |s| - pos
  {
    if pos + width >= |s| then None
    else if s[pos + width] == EOS then Some([s[pos..pos + width]])
    else if s[pos + width] == SEP then
      var rest := DecodeFrom(s, width, pos + width + 1);
      if rest.None? then None else Some([s[pos..pos + width]] + rest.value)
    else None
  }

  function Decode(s: seq<int>, width: nat): Option<seq<seq<int>>> {
    if s == [] || s[0] != BOS then None else DecodeFrom(s, width, 1)
  }

  function DecodeAll(seqs: seq<seq<int>>, width: nat): Option<seq<seq<int>>> {
    if seqs == [] then Some([])
    else
      var first := Decode(seqs[0], width);
      var rest := DecodeAll(seqs[1..], width);
      if first.None? || rest.None? then None else Some(first.value + rest.value)
  }

  ghost predicate Rows(rows: seq<seq<int>>, width: nat) {
    forall i :: 0 <= i < |rows| ==> |rows[i]| == width
  }

  /** Where row `k` starts. */
  function RowStart(width: nat, k: nat): nat {
    1 + k * (width + 1)
  }

  lemma {:induction false} RowStartNext(width: nat, k: nat)
    ensures RowStart(width, k + 1) == RowStart(width, k) + width + 1
  {
    assert (k + 1) * (width + 1) == k * (width + 1) + (width + 1);
  }

  lemma {:induction false} PackedLength(rows: seq<seq<int>>, width: nat, i: nat)
    requires i <= |rows| && Rows(rows, width)
    ensures |Packed(rows, i)| + 1 == RowStart(width, i) - (if 0 < i == |rows| then 1 else 0)
  {
    if i > 0 {
      PackedLength(rows, width, i - 1);
      RowStartNext(width, i - 1);
    }
  }

  lemma {:induction false} PackedPrefix(rows: seq<seq<int>>, i: nat, j: nat)
    requires i <= j <= |rows|
    ensures Packed(rows, i) <= Packed(rows, j)
  {
    if i < j {
      PackedPrefix(rows, i, j - 1);
    }
  }

  /** The k-th row within the packed rows, and what follows it. */
  lemma {:induction false} RowInPacked(rows: seq<seq<int>>, k: nat, at: nat, width: nat)
    requires k < |rows| && at == |Packed(rows, k)| && width == |rows[k]|
    ensures at + width <= |Packed(rows, |rows|)|
    ensures Packed(rows, |rows|)[at..at + width] == rows[k]
    ensures if k + 1 < |rows| then at + width < |Packed(rows, |rows|)| && Packed(rows, |rows|)[at + width] == SEP
            else at + width == |Packed(rows, |rows|)|
  {
    var all, upTo := Packed(rows, |rows|), Packed(rows, k + 1);
    PackedPrefix(rows, k + 1, |rows|);
    var tail := if k + 1 < |rows| then [SEP] else [];
    assert upTo == Packed(rows, k) + rows[k] + tail;
    assert upTo[at..at + width] == rows[k];
    assert all[..|upTo|] == upTo;
    assert all[at..at + width] == upTo[at..at + width];
  }

  lemma {:induction false} Enclosed(all: seq<int>, at: nat, end: nat)
    requires at <= end <= |all|
    ensures ([BOS] + all + [EOS])[at + 1..end + 1] == all[at..end]
    ensures ([BOS] + all + [EOS])[end + 1] == if end < |all| then all[end] else EOS
  {}

  /** A chunk of m rows takes m * (width + 1) + 1 tokens: row `k` in its place, then a separator or the end marker. */
  lemma {:induction false} TokensOfRow(rows: seq<seq<int>>, width: nat, k: nat)
    requires Rows(rows, width) && k < |rows|
    ensures |EncodeChunk(rows)| == RowStart(width, |rows|)
    ensures RowStart(width, k) + width < |EncodeChunk(rows)|
    ensures EncodeChunk(rows)[RowStart(width, k)..RowStart(width, k) + width] == rows[k]
    ensures EncodeChunk(rows)[RowStart(width, k) + width] == if k + 1 < |rows| then SEP else EOS
  {
    var at := RowStart(width, k) - 1;
    PackedLength(rows, width, k);
    PackedLength(rows, width, |rows|);
    RowInPacked(rows, k, at, width);
    Enclosed(Packed(rows, |rows|), at, at + width);
  }

  /** The chunk's tokens fit into `length` uncut. */
  predicate Fits(count: nat, width: nat, length: nat) {
    RowStart(width, count) <= length
  }

  lemma FitSlice(s: seq<int>, n: nat, a: nat, b: nat)
    requires a <= b <= n && b <= |s|
    ensures Fit(s, n)[a..b] == s[a..b]
  {}

  lemma {:induction false} DecodeChunkFrom(rows: seq<seq<int>>, width: nat, length: nat, k: nat)
    requires Rows(rows, width) && k < |rows|
    ensures DecodeFrom(Fit(EncodeChunk(rows), length), width, RowStart(width, k))
         == if Fits(|rows|, width, length) then Some(rows[k..]) else None
    decreases |rows| - k
  {
    var e := EncodeChunk(rows);
    var s := Fit(e, length);
    var at := RowStart(width, k);
    TokensOfRow(rows, width, k);
    RowStartNext(width, k);
    if at + width < length {
      FitSlice(e, length, at, at + width);
      assert s[at + width] == e[at + width];
      if k + 1 < |rows| {
        DecodeChunkFrom(rows, width, length, k + 1);
        assert rows[k..] == [rows[k]] + rows[k + 1..];
      } else {
        assert rows[k..] == [rows[k]];
      }
    } else {
      RowStartMonotone(width, k + 1, |rows|);
    }
  }

  lemma {:induction false} RowStartMonotone(width: nat, i: nat, j: nat)
    requires i <= j
    ensures RowStart(width, i) <= RowStart(width, j)
  {
    if i < j {
      RowStartNext(width, j - 1);
      RowStartMonotone(width, i, j - 1);
    }
  }

  /** One chunk: decoding gives its rows back if it was not cut, and fails if it was; the ids are arbitrary. */
  lemma {:induction false} ChunkRoundTrip(rows: seq<seq<int>>, width: nat, length: nat)
    requires Rows(rows, width) && rows != []
    ensures Decode(Fit(EncodeChunk(rows), length), width) == if Fits(|rows|, width, length) then Some(rows) else None
  {
    if length > 0 {
      assert Fit(EncodeChunk(rows), length)[0] == BOS;
      DecodeChunkFrom(rows, width, length, 0);
      assert rows[0..] == rows;
    }
  }

  /** The size of the largest chunk: the first one. */
  function LargestChunk(n: nat, size: nat): nat {
    if n < size then n else size
  }

  lemma {:induction false} ChunksRoundTrip(rows: seq<seq<int>>, width: nat, size: nat, length: nat)
    requires Rows(rows, width) && size > 0
    ensures DecodeAll(Sequenced(rows, size, length), width)
         == if rows == [] || Fits(LargestChunk(|rows|, size), width, length) then Some(rows) else None
    decreases |rows|
  {
    if rows != [] {
      if |rows| <= size {
        ChunkRoundTrip(rows, width, length);
        OneChunk(rows, size, length);
        DecodeOne(Fit(EncodeChunk(rows), length), width);
      } else {
        var first, rest := rows[..size], rows[size..];
        ChunkRoundTrip(first, width, length);
        ChunksRoundTrip(rest, width, size, length);
        RowStartMonotone(width, LargestChunk(|rest|, size), size);
        ChunkStep(rows, 0, size, length);
        assert From(rows, 0) == rows && From(rows, size) == rest && rows[0..size] == first;
        DecodeCons(Fit(EncodeChunk(first), length), Sequenced(rest, size, length), width);
        assert rows == first + rest;
      }
    }
  }

  lemma {:induction false} DecodeOne(s: seq<int>, width: nat)
    ensures DecodeAll([s], width) == Decode(s, width)
  {
    DecodeCons(s, [], width);
    assert [s] + [] == [s];
    if Decode(s, width).Some? {
      assert Decode(s, width).value + [] == Decode(s, width).value;
    }
  }

  lemma {:induction false} DecodeCons(s: seq<int>, rest: seq<seq<int>>, width: nat)
    ensures DecodeAll([s] + rest, width) ==
            var a, b := Decode(s, width), DecodeAll(rest, width);
            if a.None? || b.None? then None else Some(a.value + b.value)
  {
    assert ([s] + rest)[1..] == rest;
  }

  lemma {:induction false} SequenceLengths(chunks: seq<seq<seq<int>>>, length: nat)
    ensures |EncodeAll(chunks, length)| == |chunks|
    ensures forall i :: 0 <= i < |chunks| ==> |EncodeAll(chunks, length)[i]| == length
  {
    if chunks != [] {
      SequenceLengths(chunks[1..], length);
    }
  }

  lemma {:induction false} ChunkCount(rows: seq<seq<int>>, size: nat)
    requires size > 0
    ensures |Chunks(rows, size)| == (|rows| + size - 1) / size
    decreases |rows|
  {
    CeilStep(|rows|, size);
    if |rows| > size {
      ChunkCount(rows[size..], size);
    }
  }

  lemma {:induction false} CeilStep(n: nat, size: nat)
    requires size > 0
    ensures (n + size - 1) / size == if n == 0 then 0 else if n <= size then 1 else 1 + (n - size + size - 1) / size
  {
    if n == 0 {
      DivUnique(size - 1, size, 0, size - 1);
    } else if n <= size {
      DivUnique(n + size - 1, size, 1, n - 1);
    } else {
      var q, r := (n - 1) / size, (n - 1) % size;
      assert n + size - 1 == size * (q + 1) + r;
      DivUnique(n + size - 1, size, q + 1, r);
    }
  }

  lemma {:induction false} DivUnique(a: int, d: int, q: int, r: int)
    requires 0 <= r < d && a == d * q + r
    ensures a / d == q
  {
    var p, s := a / d, a % d;
    assert d * (p - q) == r - s;
    OnlyZero(p - q, d);
  }

  lemma OnlyZero(k: int, d: int)
    requires d > 0 && -d < d * k < d
    ensures k == 0
  {}

  /** There are ceil(n / size) sequences, all of the same length. */
  lemma {:induction false} SequenceCount(rows: seq<seq<int>>, size: nat, length: nat)
    requires size > 0
    ensures |Sequenced(rows, size, length)| == (|rows| + size - 1) / size
    ensures forall i :: 0 <= i < |Sequenced(rows, size, length)| ==> |Sequenced(rows, size, length)[i]| == length
  {
    ChunkCount(rows, size);
    SequenceLengths(Chunks(rows, size), length);
  }

  // ----- A whole group -----

  ghost predicate Width(group: seq<Txn>, width: nat) {
    forall i :: 0 <= i < |group| ==> |group[i].ids| == width
  }

  lemma {:induction false} SortedWidth(group: seq<Txn>, width: nat)
    requires Width(group, width)
    ensures Rows(Map(IdsOf, ByTime(group)), width) && |ByTime(group)| == |group|
  {
    SortPermutes(TsLe, group);
    var sorted := ByTime(group);
    forall i | 0 <= i < |sorted| ensures |sorted[i].ids| == width {
      assert sorted[i] in multiset(group);
    }
  }

  /**
   * Round trip: decoding a group's sequences gives its transactions in stable timestamp order if and only
   * if the largest chunk fits, whatever the token ids are.
   */
  lemma {:induction false} GroupRoundTrip(group: seq<Txn>, ordered: seq<Txn>, width: nat, size: nat, length: nat)
    requires Width(group, width) && size > 0 && InTime(group, ordered)
    ensures var rows := Map(IdsOf, ordered);
            var decoded := DecodeAll(Sequenced(rows, size, length), width);
            && (decoded == Some(rows) <==> group == [] || Fits(LargestChunk(|group|, size), width, length))
            && (decoded != Some(rows) ==> decoded == None)
  {
    StableOrder(group);
    TimeOrderUnique(group, ordered, ByTime(group));
    SortedWidth(group, width);
    ChunksRoundTrip(Map(IdsOf, ByTime(group)), width, size, length);
  }

  // ----- The layout of a sequence -----

  /** What token `i` of a chunk's sequence is: markers, the row's ids in their places, and padding. */
  lemma {:induction false} ChunkLayout(rows: seq<seq<int>>, width: nat, length: nat, k: nat, j: nat)
    requires Rows(rows, width) && k < |rows| && j < width && length > 0
    ensures var s := Fit(EncodeChunk(rows), length);
            var row := 1 + k * (width + 1);
            && s[0] == BOS
            && (row + j < length ==> s[row + j] == rows[k][j])
            && (row + width < length ==> s[row + width] == if k + 1 < |rows| then SEP else EOS)
            && (forall i :: 1 + |rows| * (width + 1) <= i < length ==> s[i] == PAD)
  {
    var e, at := EncodeChunk(rows), RowStart(width, k);
    TokensOfRow(rows, width, k);
    assert e[at..at + width][j] == e[at + j];
    assert at + j >= 0 && at + width >= 0;
  }

  lemma {:induction false} TwoByTime(a: Txn, b: Txn)
    requires a.ts < b.ts
    ensures ByTime([b, a]) == [a, b]
  {
    assert [b, a][1..] == [a] && [a][1..] == [];
    assert Sort(TsLe, [a]) == [a] by { assert Sort(TsLe, [a][1..]) == []; }
    assert Insert(TsLe, b, [a]) == [a] + Insert(TsLe, b, []);
  }

  /** Two transactions of one account, the later one given first. */
  lemma {:induction false} TwoTransactions(user: int, card: int)
    ensures Sequenced(Map(IdsOf, ByTime([Txn(user, card, 20, [12]), Txn(user, card, 10, [11])])), 315, 8)
         == [[1, 11, 3, 12, 2, 0, 0, 0]]
  {
    var a, b := Txn(user, card, 10, [11]), Txn(user, card, 20, [12]);
    TwoByTime(a, b);
    var rows := [[11], [12]];
    assert Map(IdsOf, [a, b]) == rows;
    OneChunk(rows, 315, 8);
    assert Packed(rows, 1) == [11, 3];
    assert Packed(rows, 2) == [11, 3, 12];
    assert Fit(EncodeChunk(rows), 8) == [1, 11, 3, 12, 2, 0, 0, 0];
  }

  /** At the default 315 transactions in 4096 tokens, full chunks are kept whole up to 12 fields. */
  lemma {:induction false} DefaultsFit(width: nat)
    ensures Fits(SEQ_CHUNK_SIZE, width, SEQ_LENGTH) <==> width <= 12
  {
    assert RowStart(width, SEQ_CHUNK_SIZE) == 1 + 315 * (width + 1);
  }

  // ----- When no decoder can do better -----

  /** Different rows always give different sequences, so that some decoder tells them apart. */
  ghost predicate Lossless(width: nat, size: nat, length: nat)
    requires size > 0
  {
    forall a, b :: Rows(a, width) && Rows(b, width) && Sequenced(a, size, length) == Sequenced(b, size, length) ==>
      a == b
  }

  lemma {:induction false} DecodeExtends(s: seq<int>, t: seq<int>, width: nat, pos: nat)
    requires s <= t && DecodeFrom(s, width, pos).Some?
    ensures DecodeFrom(t, width, pos) == DecodeFrom(s, width, pos)
    decreases |s| - pos
  {
    assert t[pos..pos + width] == s[pos..pos + width] && t[pos + width] == s[pos + width];
    if s[pos + width] == SEP {
      DecodeExtends(s, t, width, pos + width + 1);
    }
  }

  /** Putting an end marker back makes up for a missing one. */
  lemma {:induction false} ChunkRecovers(rows: seq<seq<int>>, width: nat, length: nat)
    requires Rows(rows, width) && rows != [] && Fits(|rows|, width, length + 1)
    ensures Decode(Fit(EncodeChunk(rows), length) + [EOS], width) == Some(rows)
  {
    var e := EncodeChunk(rows);
    TokensOfRow(rows, width, |rows| - 1);
    ChunkRoundTrip(rows, width, |e|);
    assert Fit(e, |e|) == e;
    assert e[|e| - 1] == EOS;
    var t := Fit(e, length) + [EOS];
    assert e <= t;
    DecodeExtends(e, t, width, 1);
  }

  function AddEnd(s: seq<int>): seq<int> { s + [EOS] }

  lemma {:induction false} FirstChunk(rows: seq<seq<int>>, size: nat, length: nat)
    requires rows != [] && size > 0
    ensures var n := LargestChunk(|rows|, size);
            Sequenced(rows, size, length) == [Fit(EncodeChunk(rows[..n]), length)] + Sequenced(rows[n..], size, length)
  {
    var n := LargestChunk(|rows|, size);
    ChunkStep(rows, 0, size, length);
    assert From(rows, 0) == rows && From(rows, size) == rows[n..] && rows[0..n] == rows[..n];
  }

  lemma {:induction false} RecoverFirst(first: seq<seq<int>>, s: seq<int>, more: seq<seq<int>>, rest: seq<seq<int>>,
                                        width: nat)
    requires Decode(AddEnd(s), width) == Some(first) && DecodeAll(Map(AddEnd, more), width) == Some(rest)
    ensures DecodeAll(Map(AddEnd, [s] + more), width) == Some(first + rest)
  {
    assert Map(AddEnd, [s] + more) == [AddEnd(s)] + Map(AddEnd, more);
    DecodeCons(AddEnd(s), Map(AddEnd, more), width);
  }

  lemma {:induction false} RecoverStep(rows: seq<seq<int>>, first: seq<seq<int>>, rest: seq<seq<int>>,
                                       seqs: seq<seq<int>>, more: seq<seq<int>>, width: nat, length: nat)
    requires Rows(first, width) && first != [] && Fits(|first|, width, length + 1) && rows == first + rest
    requires seqs == [Fit(EncodeChunk(first), length)] + more && DecodeAll(Map(AddEnd, more), width) == Some(rest)
    ensures DecodeAll(Map(AddEnd, seqs), width) == Some(rows)
  {
    ChunkRecovers(first, width, length);
    RecoverFirst(first, Fit(EncodeChunk(first), length), more, rest, width);
  }

  lemma {:induction false} SmallerFits(n: nat, size: nat, width: nat, length: nat)
    requires n <= size && Fits(size, width, length)
    ensures Fits(n, width, length)
  {
    RowStartMonotone(width, n, size);
  }

  lemma {:induction false} RecoverRows(rows: seq<seq<int>>, width: nat, size: nat, length: nat, n: nat)
    requires Rows(rows, width) && rows != [] && size > 0
    requires n == LargestChunk(|rows|, size) && Fits(n, width, length + 1)
    requires DecodeAll(Map(AddEnd, Sequenced(rows[n..], size, length)), width) == Some(rows[n..])
    ensures DecodeAll(Map(AddEnd, Sequenced(rows, size, length)), width) == Some(rows)
  {
    FirstChunk(rows, size, length);
    assert rows == rows[..n] + rows[n..];
    RecoverStep(rows, rows[..n], rows[n..], Sequenced(rows, size, length), Sequenced(rows[n..], size, length),
                width, length);
  }

  lemma {:induction false} RowsRecover(rows: seq<seq<int>>, width: nat, size: nat, length: nat)
    requires Rows(rows, width) && size > 0 && Fits(size, width, length + 1)
    ensures DecodeAll(Map(AddEnd, Sequenced(rows, size, length)), width) == Some(rows)
    decreases |rows|
  {
    if rows != [] {
      var n := LargestChunk(|rows|, size);
      RowsRecover(rows[n..], width, size, length);
      SmallerFits(n, size, width, length + 1);
      RecoverRows(rows, width, size, length, n);
    }
  }

  lemma {:induction false} FitIsLossless(width: nat, size: nat, length: nat)
    requires size > 0 && Fits(size, width, length + 1)
    ensures Lossless(width, size, length)
  {
    forall a, b | Rows(a, width) && Rows(b, width) && Sequenced(a, size, length) == Sequenced(b, size, length)
      ensures a == b
    {
      RowsRecover(a, width, size, length);
      RowsRecover(b, width, size, length);
    }
  }

  /** Rows of zeros, the last one ending in `x`. */
  function Sample(width: nat, size: nat, x: int): seq<seq<int>>
    requires width > 0
  {
    seq(size, i => seq(width, j => if i == size - 1 && j == width - 1 then x else 0))
  }

  lemma {:induction false} SampleLength(width: nat, size: nat, x: int)
    requires width > 0 && size > 0
    ensures var p := Sample(width, size, x);
            && |EncodeChunk(p)| == RowStart(width, size)
            && Packed(p, size) == Packed(p, size - 1) + p[size - 1]
            && EncodeChunk(p) == [BOS] + (Packed(p, size - 1) + p[size - 1]) + [EOS]
  {
    TokensOfRow(Sample(width, size, x), width, size - 1);
  }

  lemma {:induction false} SampleTokens(width: nat, size: nat, x: int, y: int)
    requires width > 0 && size > 0
    ensures var a, b := EncodeChunk(Sample(width, size, x)), EncodeChunk(Sample(width, size, y));
            |a| == |b| == RowStart(width, size) && a[..|a| - 2] == b[..|b| - 2]
  {
    var p, q := Sample(width, size, x), Sample(width, size, y);
    SampleLength(width, size, x);
    SampleLength(width, size, y);
    SamplePacked(width, size, x, y, size - 1);
    assert p[size - 1][..width - 1] == q[size - 1][..width - 1];
    SameButLast(Packed(p, size - 1), p[size - 1], q[size - 1], width);
  }

  lemma {:induction false} SamplePacked(width: nat, size: nat, x: int, y: int, i: nat)
    requires width > 0 && i < size
    ensures Packed(Sample(width, size, x), i) == Packed(Sample(width, size, y), i)
  {
    if i > 0 {
      SamplePacked(width, size, x, y, i - 1);
      assert Sample(width, size, x)[i - 1] == Sample(width, size, y)[i - 1];
    }
  }

  lemma {:induction false} SameButLast(head: seq<int>, u: seq<int>, v: seq<int>, width: nat)
    requires |u| == |v| == width > 0 && u[..width - 1] == v[..width - 1]
    ensures var a, b := [BOS] + (head + u) + [EOS], [BOS] + (head + v) + [EOS];
            a[..|a| - 2] == b[..|b| - 2]
  {
    var a, b := [BOS] + (head + u) + [EOS], [BOS] + (head + v) + [EOS];
    assert a[..|a| - 2] == [BOS] + (head + u[..width - 1]);
    assert b[..|b| - 2] == [BOS] + (head + v[..width - 1]);
  }

  lemma {:induction false} OneChunk(rows: seq<seq<int>>, size: nat, length: nat)
    requires 0 < |rows| <= size
    ensures Sequenced(rows, size, length) == [Fit(EncodeChunk(rows), length)]
  {
    ChunkStep(rows, 0, size, length);
    assert From(rows, 0) == rows == rows[0..|rows|];
    var s := Fit(EncodeChunk(rows), length);
    assert [s] + Sequenced(From(rows, size), size, length) == [s] by { assert From(rows, size) == []; }
  }

  /** A cut that reaches a row's tokens loses them: two different chunks give the same sequence. */
  lemma {:induction false} CutLoses(width: nat, size: nat, length: nat)
    requires width > 0 && size > 0 && !Fits(size, width, length + 1)
    ensures !Lossless(width, size, length)
  {
    var p, q := Sample(width, size, 0), Sample(width, size, 1);
    var a, b := EncodeChunk(p), EncodeChunk(q);
    SampleTokens(width, size, 0, 1);
    assert Fit(a, length) == Fit(b, length) by {
      forall i | 0 <= i < length ensures a[i] == b[i] { assert a[i] == a[..|a| - 2][i] && b[i] == b[..|b| - 2][i]; }
    }
    OneChunk(p, size, length);
    OneChunk(q, size, length);
    assert p[size - 1][width - 1] != q[size - 1][width - 1];
  }

  /** The sequences determine the rows if and only if at most the end marker of a full chunk is cut. */
  lemma {:induction false} LosslessExact(width: nat, size: nat, length: nat)
    requires width > 0 && size > 0
    ensures Lossless(width, size, length) <==> size * (width + 1) <= length
  {
    if size * (width + 1) <= length {
      FitIsLossless(width, size, length);
    } else {
      CutLoses(width, size, length);
    }
  }

  // ----- Grouping by account -----

  function Key(user: int, card: int): int {
    user * 100 + card
  }

  function HasKey(k: int): Txn -> bool { (t: Txn) => Key(t.user, t.card) == k }
  function OfAccount(user: int, card: int): Txn -> bool { (t: Txn) => t.user == user && t.card == card }

  /** Two cards can share a key, for some users, exactly when they differ by a multiple of 100. */
  lemma {:induction false} KeySeparates(c: int, d: int)
    ensures (forall u: int, v: int :: Key(u, c) == Key(v, d) ==> u == v && c == d) <==> c == d || c % 100 != d % 100
  {
    if c % 100 == d % 100 && c != d {
      var k := (c - d) / 100;
      assert Key(0, c) == Key(k, d);
    }
  }

  ghost predicate ValidCards(table: seq<Txn>) {
    forall i :: 0 <= i < |table| ==> 0 <= table[i].card < 100
  }

  /** With card numbers below 100, grouping by key is grouping by account. */
  lemma {:induction false} GroupIsAccount(table: seq<Txn>, user: int, card: int)
    requires ValidCards(table) && 0 <= card < 100
    ensures Filter(HasKey(Key(user, card)), table) == Filter(OfAccount(user, card), table)
  {
    if table != [] {
      GroupIsAccount(table[1..], user, card);
      assert 0 <= table[0].card < 100;
    }
  }

  /** Card 100 of user 0 and card 0 of user 1 would be one group. */
  lemma KeyCollision()
    ensures Key(0, 100) == Key(1, 0)
  {}

  /**
   * From the table to the sequences: the group that holds a transaction is its account's, and decoding
   * that group's sequences gives the account's transactions in stable timestamp order.
   */
  lemma {:induction false} AccountRoundTrip(table: seq<Txn>, t: Txn, k: int, ordered: seq<Txn>, width: nat, size: nat,
                                            length: nat)
    requires ValidCards(table) && Width(table, width) && size > 0 && t in table
    requires Fits(size, width, length) && InTime(Filter(OfAccount(t.user, t.card), table), ordered)
    ensures t in Filter(HasKey(k), table) <==> k == Key(t.user, t.card)
    ensures var group := Filter(OfAccount(t.user, t.card), table);
            && Filter(HasKey(Key(t.user, t.card)), table) == group
            && DecodeAll(Sequenced(Map(IdsOf, ordered), size, length), width) == Some(Map(IdsOf, ordered))
  {
    var group := Filter(OfAccount(t.user, t.card), table);
    var i :| 0 <= i < |table| && table[i] == t;
    GroupIsAccount(table, t.user, t.card);
    FilterMembers(HasKey(k), table);
    FilterMembers(OfAccount(t.user, t.card), table);
    forall j | 0 <= j < |group| ensures |group[j].ids| == width {
      assert group[j] in table;
    }
    SmallerFits(LargestChunk(|group|, size), size, width, length);
    GroupRoundTrip(group, ordered, width, size, length);
  }
}
