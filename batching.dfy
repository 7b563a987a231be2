/**
 * Grouping a stream of points into batches of a fixed size. `Chunks` is what
 * the sea-temperature service emits (full batches, then the non-empty
 * remainder); `FullChunks` is what the data-access loop emits (full batches
 * only). `Flatten` concatenates emitted batches back into one sequence.
 */
module Batching {

  function Flatten<T>(batches: seq<seq<T>>): seq<T>
  {
    if batches == [] then [] else batches[0] + Flatten(batches[1..])
  }

  /** Every batch holds exactly `n` elements. */
  predicate AllFull<T>(batches: seq<seq<T>>, n: nat)
  {
    forall k :: 0 <= k < |batches| ==> |batches[k]| == n
  }

  /** Consecutive batches of `n`; a shorter last batch only when elements remain. */
  function Chunks<T>(s: seq<T>, n: nat): (c: seq<seq<T>>)
    requires n > 0
    ensures forall k :: 0 <= k < |c| ==> 1 <= |c[k]| <= n
    decreases |s|
  {
    if |s| == 0 then []
    else if |s| <= n then [s]
    else [s[..n]] + Chunks(s[n..], n)
  }

  /** Consecutive batches of exactly `n`; a remainder shorter than `n` is dropped. */
  function FullChunks<T>(s: seq<T>, n: nat): (c: seq<seq<T>>)
    requires n > 0
    ensures AllFull(c, n)
    decreases |s|
  {
    if |s| < n then [] else [s[..n]] + FullChunks(s[n..], n)
  }

  /**
   * One step of a batching loop: `x` joins the buffer, and the buffer is
   * handed on as a batch once it holds `n` elements. Batches already handed
   * on stay as they were, and no element is lost or reordered.
   */
  method Collect<T>(batches: seq<seq<T>>, buffer: seq<T>, x: T, n: nat)
    returns (batches': seq<seq<T>>, buffer': seq<T>)
    requires n > 0 && AllFull(batches, n) && |buffer| < n
    ensures AllFull(batches', n) && |buffer'| < n
    ensures Flatten(batches') + buffer' == Flatten(batches) + buffer + [x]
    ensures batches' == batches || batches' == batches + [buffer + [x]]
  {
    buffer' := buffer + [x];
    batches' := batches;
    if |buffer'| >= n {
      FlattenSnoc(batches, buffer');
      batches' := batches + [buffer'];
      buffer' := [];
      assert Flatten(batches') + buffer' == Flatten(batches');
    }
  }

  // ---- arithmetic helpers -------------------------------------------------

  lemma DivUnique(x: int, n: int, q: int)
    requires n > 0 && q * n <= x < q * n + n
    ensures x / n == q && x % n == x - q * n
  {
    var d := x / n;
    if d < q {
      MulMonotonic(d + 1, q, n);
      assert false;
    } else if d > q {
      MulMonotonic(q + 1, d, n);
      assert false;
    }
  }

  lemma MulMonotonic(a: int, b: int, n: int)
    requires a <= b && n > 0
    ensures a * n <= b * n
  {
  }

  lemma DivStep(x: int, n: int)
    requires n > 0 && x >= n
    ensures (x - n) / n == x / n - 1 && (x - n) % n == x % n
  {
    var q := x / n;
    assert q * n <= x < q * n + n;
    DivUnique(x - n, n, q - 1);
  }

  // ---- Flatten ------------------------------------------------------------

  lemma {:induction false} FlattenAppend<T>(a: seq<seq<T>>, b: seq<seq<T>>)
    ensures Flatten(a + b) == Flatten(a) + Flatten(b)
  {
    if a == [] {
      assert a + b == b;
    } else {
      assert (a + b)[1..] == a[1..] + b;
      FlattenAppend(a[1..], b);
    }
  }

  lemma FlattenSnoc<T>(a: seq<seq<T>>, x: seq<T>)
    ensures Flatten(a + [x]) == Flatten(a) + x
  {
    FlattenAppend(a, [x]);
    assert Flatten([x]) == x + Flatten([x][1..]);
    assert [x][1..] == [];
  }

  // ---- Chunks -------------------------------------------------------------

  /** Batching loses and reorders nothing. */
  lemma {:induction false} ChunksFlatten<T>(s: seq<T>, n: nat)
    requires n > 0
    ensures Flatten(Chunks(s, n)) == s
    decreases |s|
  {
    if |s| == 0 {
    } else if |s| <= n {
      assert Flatten([s]) == s + Flatten([s][1..]);
      assert [s][1..] == [];
    } else {
      ChunksFlatten(s[n..], n);
      assert ([s[..n]] + Chunks(s[n..], n))[1..] == Chunks(s[n..], n);
      assert s[..n] + s[n..] == s;
    }
  }

  /**
   * Every batch has 1 to `n` elements, every batch but the last exactly `n`,
   * and there are no batches exactly when there are no elements.
   */
  lemma {:induction false} ChunksSizes<T>(s: seq<T>, n: nat)
    requires n > 0
    ensures var c := Chunks(s, n);
      && (c == [] <==> s == [])
      && (forall k :: 0 <= k < |c| ==> 1 <= |c[k]| <= n)
      && (forall k :: 0 <= k < |c| - 1 ==> |c[k]| == n)
    decreases |s|
  {
    if |s| > n {
      ChunksSizes(s[n..], n);
      var c := Chunks(s, n);
      assert forall k :: 1 <= k < |c| ==> c[k] == Chunks(s[n..], n)[k - 1];
    }
  }

  /** For `m` elements there are ceil(m / n) batches. */
  lemma {:induction false} ChunksCount<T>(s: seq<T>, n: nat)
    requires n > 0
    ensures |Chunks(s, n)| == (|s| + n - 1) / n
    decreases |s|
  {
    if |s| == 0 {
      DivUnique(n - 1, n, 0);
    } else if |s| <= n {
      DivUnique(|s| + n - 1, n, 1);
    } else {
      ChunksCount(s[n..], n);
      DivStep(|s| + n - 1, n);
    }
  }

  /** With at least `n` elements, the first batch is the first `n` of them. */
  lemma FirstChunkFull<T>(s: seq<T>, n: nat)
    requires n > 0 && |s| >= n
    ensures |Chunks(s, n)| >= 1 && Chunks(s, n)[0] == s[..n] && |Chunks(s, n)[0]| == n
  {
    if |s| == n {
      assert s[..n] == s;
    }
  }

  /**
   * Full batches followed by a shorter, possibly empty, buffer are exactly
   * the batching of their concatenation: the buffer is the last batch when
   * it is non-empty.
   */
  lemma {:induction false} ChunksOfFullBatches<T>(bs: seq<seq<T>>, buf: seq<T>, n: nat)
    requires n > 0 && AllFull(bs, n) && |buf| < n
    ensures Chunks(Flatten(bs) + buf, n) == bs + (if buf == [] then [] else [buf])
  {
    if bs == [] {
      assert Flatten(bs) + buf == buf;
    } else {
      var tail := bs[1..];
      assert AllFull(tail, n) by {
        forall k | 0 <= k < |tail| ensures |tail[k]| == n {
          assert tail[k] == bs[k + 1];
        }
      }
      var rest := Flatten(tail) + buf;
      var s := Flatten(bs) + buf;
      assert |bs[0]| == n;
      assert s == bs[0] + rest;
      assert s[..n] == bs[0] && s[n..] == rest;
      ChunksOfFullBatches(tail, buf, n);
      assert bs == [bs[0]] + tail;
      if rest == [] {
        FlattenFullLength(tail, n);
        assert tail == [];
      } else {
        assert |s| > n;
        assert Chunks(s, n) == [bs[0]] + Chunks(rest, n);
      }
    }
  }

  /** Full batches hold `n` elements each. */
  lemma {:induction false} FlattenFullLength<T>(bs: seq<seq<T>>, n: nat)
    requires AllFull(bs, n)
    ensures |Flatten(bs)| == |bs| * n
  {
    if bs != [] {
      assert AllFull(bs[1..], n) by {
        forall k | 0 <= k < |bs[1..]| ensures |bs[1..][k]| == n {
          assert bs[1..][k] == bs[k + 1];
        }
      }
      FlattenFullLength(bs[1..], n);
    }
  }

  // ---- FullChunks ---------------------------------------------------------

  /** Full batches followed by a shorter buffer: only the full batches are kept. */
  lemma {:induction false} FullChunksOfFullBatches<T>(bs: seq<seq<T>>, buf: seq<T>, n: nat)
    requires n > 0 && AllFull(bs, n) && |buf| < n
    ensures FullChunks(Flatten(bs) + buf, n) == bs
  {
    if bs == [] {
      assert Flatten(bs) + buf == buf;
    } else {
      var rest := Flatten(bs[1..]) + buf;
      var s := Flatten(bs) + buf;
      assert s == bs[0] + rest;
      assert s[..n] == bs[0] && s[n..] == rest;
      FullChunksOfFullBatches(bs[1..], buf, n);
      assert bs == [bs[0]] + bs[1..];
    }
  }

  /**
   * Full-only batching delivers floor(m / n) batches of exactly `n`; what it
   * delivers is the input without its last `m mod n` elements.
   */
  lemma {:induction false} FullChunksShape<T>(s: seq<T>, n: nat)
    requires n > 0
    ensures var c := FullChunks(s, n);
      && AllFull(c, n)
      && |c| == |s| / n
      && Flatten(c) == s[..|s| - |s| % n]
    decreases |s|
  {
    if |s| < n {
      DivUnique(|s|, n, 0);
    } else {
      FullChunksShape(s[n..], n);
      DivStep(|s|, n);
      var c := FullChunks(s, n);
      assert c[1..] == FullChunks(s[n..], n);
      assert forall k :: 1 <= k < |c| ==> c[k] == FullChunks(s[n..], n)[k - 1];
      assert s[..n] + s[n..][..|s| - n - |s| % n] == s[..|s| - |s| % n];
    }
  }

  /**
   * The two batchings agree on their full batches: the service's output is
   * the data-access loop's output plus the non-empty remainder.
   */
  lemma {:induction false} ChunksExtendFullChunks<T>(s: seq<T>, n: nat)
    requires n > 0
    ensures Chunks(s, n) == FullChunks(s, n) + (if |s| % n == 0 then [] else [s[|s| - |s| % n..]])
    decreases |s|
  {
    if |s| < n {
      DivUnique(|s|, n, 0);
      assert s[|s| - |s| % n..] == s;
    } else if |s| == n {
      DivUnique(|s|, n, 1);
      assert s[..n] == s && s[n..] == [];
    } else {
      ChunksExtendFullChunks(s[n..], n);
      DivStep(|s|, n);
      assert s[n..][|s| - n - |s| % n..] == s[|s| - |s| % n..];
    }
  }
}
