/** Splitting a sequence into consecutive slices of a fixed length, as
    `divide(arr, len)` does before events are persisted (index.js:225-236). */
module Chunking {
  import opened Seqs

  /** The chunk length the request handler persists with: one stored document
      holds at most this many events (index.js:42). */
  const ChunkLength: nat := 5

  function Min(a: int, b: int): int
  {
    if a < b then a else b
  }

  /** Number of chunks of length `k` needed to cover `n` elements. */
  function CeilDiv(n: nat, k: nat): nat
    requires k > 0
  {
    (n + k - 1) / k
  }

  /** Euclidean division has a unique quotient and remainder. */
  lemma DivModUnique(a: int, k: int, q: int, r: int)
    requires k > 0 && 0 <= r < k && a == q * k + r
    ensures a / k == q && a % k == r
  {
    var q', r' := a / k, a % k;
    assert q' * k + r' == q * k + r;
    if q' > q {
      assert (q' - q) * k == q' * k - q * k;
      MulAtLeast(q' - q, k);
    } else if q' < q {
      assert (q - q') * k == q * k - q' * k;
      MulAtLeast(q - q', k);
    }
  }

  lemma {:induction false} MulAtLeast(d: nat, k: nat)
    requires d >= 1
    ensures d * k >= k
  {
    if d > 1 {
      MulAtLeast(d - 1, k);
      assert d * k == (d - 1) * k + k;
    }
  }

  lemma ModStep(n: nat, k: nat)
    requires 0 < k < n
    ensures n % k == (n - k) % k
  {
    var m := n - k;
    DivModUnique(n, k, m / k + 1, m % k);
  }

  lemma ModSmall(n: nat, k: nat)
    requires 0 < n <= k
    ensures n % k == (if n == k then 0 else n)
  {
    if n == k {
      DivModUnique(n, k, 1, 0);
    } else {
      DivModUnique(n, k, 0, n);
    }
  }

  /** Taking one chunk off a non-empty input leaves one chunk fewer. */
  lemma CeilDivStep(n: nat, k: nat)
    requires 0 < n && 0 < k
    ensures CeilDiv(n, k) == CeilDiv(n - Min(k, n), k) + 1
  {
    if k < n {
      var m := n - k + k - 1;
      DivModUnique(m + k, k, m / k + 1, m % k);
    } else {
      DivModUnique(n + k - 1, k, 1, n - 1);
    }
  }

  /** Reference definition of `divide`: the first slice takes `len` elements
      (fewer when the input is shorter, as `Array.prototype.slice` clamps its
      end index), and the rest is divided the same way. Every chunk is
      non-empty and at most `len` long, all chunks but the last are exactly
      `len` long, and there are ceil(|arr| / len) of them. */
  function Divide<T>(arr: seq<T>, len: nat): (chunks: seq<seq<T>>)
    requires len > 0
    ensures |chunks| == CeilDiv(|arr|, len)
    ensures forall i :: 0 <= i < |chunks| ==> 0 < |chunks[i]| <= len
    ensures forall i :: 0 <= i < |chunks| - 1 ==> |chunks[i]| == len
    decreases |arr|
  {
    if |arr| == 0 then []
    else
      var end := Min(len, |arr|);
      var rest := Divide(arr[end..], len);
      CeilDivStep(|arr|, len);
      [arr[..end]] + rest
  }

  /** Taking the next chunk off the front of what is still to be divided
      keeps the chunks found so far plus the rest's chunks unchanged. */
  lemma TakeChunk<T>(done: seq<seq<T>>, rest: seq<T>, len: nat)
    requires len > 0 && |rest| > 0
    ensures (done + [rest[..Min(len, |rest|)]]) + Divide(rest[Min(len, |rest|)..], len)
            == done + Divide(rest, len)
  {
    var end := Min(len, |rest|);
    assert Divide(rest, len) == [rest[..end]] + Divide(rest[end..], len);
    assert (done + [rest[..end]]) + Divide(rest[end..], len)
           == done + ([rest[..end]] + Divide(rest[end..], len));
  }

  /** `TakeChunk` at index `i` of the whole input, the clamped slice
      `arr.slice(i, i + len)` being the next chunk. */
  lemma TakeChunkAt<T>(done: seq<seq<T>>, arr: seq<T>, i: nat, len: nat)
    requires len > 0 && i < |arr|
    ensures (done + [arr[i..Min(i + len, |arr|)]]) + Divide(arr[Min(i + len, |arr|)..], len)
            == done + Divide(arr[i..], len)
  {
    var end := Min(i + len, |arr|);
    assert arr[i..][..Min(len, |arr| - i)] == arr[i..end];
    assert arr[i..][Min(len, |arr| - i)..] == arr[end..];
    TakeChunk(done, arr[i..], len);
  }

  /** The `while (i < n)` loop of `divide`, index for index: `i` jumps by `len`
      and may overshoot `n`, the clamped slice absorbing the overshoot. It
      computes exactly the reference chunking. */
  method DivideArray<T>(arr: seq<T>, len: nat) returns (chunks: seq<seq<T>>)
    requires len > 0
    ensures chunks == Divide(arr, len)
    ensures Flatten(chunks) == arr
  {
    chunks := [];
    var i := 0;
    var n := |arr|;
    while i < n
      invariant chunks + Divide(arr[Min(i, n)..], len) == Divide(arr, len)
    {
      var end := Min(i + len, n);
      TakeChunkAt(chunks, arr, i, len);
      chunks := chunks + [arr[i..end]];
      i := i + len;
    }
    assert arr[n..] == [];
    DivideFlatten(arr, len);
  }

  /** Concatenating the chunks gives back the input, in order. */
  lemma {:induction false} DivideFlatten<T>(arr: seq<T>, len: nat)
    requires len > 0
    ensures Flatten(Divide(arr, len)) == arr
    decreases |arr|
  {
    if |arr| > 0 {
      var end := Min(len, |arr|);
      DivideFlatten(arr[end..], len);
      assert Divide(arr, len)[1..] == Divide(arr[end..], len);
      assert arr == arr[..end] + arr[end..];
    }
  }

  /** The last chunk holds the remainder |arr| mod len, or a full `len` when
      the division is exact. */
  lemma {:induction false} DivideLastChunk<T>(arr: seq<T>, len: nat)
    requires len > 0 && |arr| > 0
    ensures |Divide(arr, len)[|Divide(arr, len)| - 1]| ==
            (if |arr| % len == 0 then len else |arr| % len)
    decreases |arr|
  {
    var end := Min(len, |arr|);
    var chunks, rest := Divide(arr, len), Divide(arr[end..], len);
    assert chunks == [arr[..end]] + rest;
    if len < |arr| {
      DivideLastChunk(arr[end..], len);
      assert chunks[|chunks| - 1] == rest[|rest| - 1];
      ModStep(|arr|, len);
    } else {
      ModSmall(|arr|, len);
    }
  }

  /** Twelve elements in chunks of five give chunks of 5, 5 and 2. */
  lemma DivideTwelveByFive<T>(arr: seq<T>)
    requires |arr| == 12
    ensures |Divide(arr, ChunkLength)| == 3
    ensures |Divide(arr, ChunkLength)[0]| == 5
    ensures |Divide(arr, ChunkLength)[1]| == 5
    ensures |Divide(arr, ChunkLength)[2]| == 2
  {
    DivideLastChunk(arr, ChunkLength);
  }
}
