/**
 * The fixed-capacity circular byte buffer used by the audio thread of the
 * player: a byte array, a read cursor, a write cursor and a `full` flag that
 * tells a full buffer from an empty one when the cursors meet.
 *
 * The cursor arithmetic of the private `*_wo_lock` helpers is stated once, as
 * functions over a `Cursors` value; the class `RingBuffer` holds the array and
 * the three cursor fields and ties every method to those functions.
 */
module RingBuffers {
  import opened Wrappers

  type Byte = bv8

  /** `(r_idx_, w_idx_, full_)` of a buffer. */
  datatype Cursors = Cursors(r: nat, w: nat, full: bool)

  /** `k % cap` for `k` in `[0, 2·cap)`: every cursor update of the buffer is of this kind. */
  function Wrap(k: nat, cap: nat): (i: nat)
    requires 0 < cap && k < 2 * cap
    ensures i < cap
  {
    if k < cap then k else k - cap
  }

  /** `Wrap` is the source's `% cap` on the range where the cursors use it. */
  lemma WrapIsMod(k: nat, cap: nat)
    requires 0 < cap && k < 2 * cap
    ensures Wrap(k, cap) == k % cap
  {
    if k >= cap {
      assert k == 1 * cap + (k - cap);
    }
  }

  /** Cursors every public method keeps: both cursors inside the array, and `full` only when they meet. */
  predicate WellFormed(c: Cursors, cap: nat)
  {
    0 < cap && c.r < cap && c.w < cap && (c.full ==> c.r == c.w)
  }

  /** `empty_wo_lock()`. */
  predicate EmptyOf(c: Cursors)
  {
    !c.full && c.r == c.w
  }

  /**
   * `size_wo_lock()`: the number of live bytes. The write cursor may equal
   * `cap` here, a state only the unrepaired `defrag` produces.
   */
  function SizeOf(c: Cursors, cap: nat): (n: nat)
    requires c.r < cap && c.w <= cap
    ensures n <= cap
  {
    if c.full then cap else (if c.w >= c.r then c.w else c.w + cap) - c.r
  }

  /** On well-formed cursors the size is `full ? cap : (w - r) mod cap`. */
  lemma SizeIsModularDistance(c: Cursors, cap: nat)
    requires WellFormed(c, cap)
    ensures SizeOf(c, cap) == if c.full then cap else (c.w - c.r) % cap
  {
    if !c.full && c.w < c.r {
      assert c.w - c.r == -1 * cap + (c.w + cap - c.r);
    }
  }

  /** `continuous_size_wo_lock()`: live bytes from the read cursor up to the wrap. */
  function ContinuousSizeOf(c: Cursors, cap: nat): (n: nat)
    requires c.r < cap && c.w <= cap
    ensures c.r + n <= cap
    ensures !EmptyOf(c) ==> 0 < n <= SizeOf(c, cap)
  {
    (if c.w > c.r then c.w else cap) - c.r
  }

  /** `continuous_free_size_wo_lock()`: free bytes from the write cursor up to the wrap; it ignores `full`. */
  function ContinuousFreeSizeOf(c: Cursors, cap: nat): (n: nat)
    requires c.r < cap && c.w <= cap
    ensures c.w + n <= cap
    ensures !c.full ==> n <= cap - SizeOf(c, cap)
  {
    (if c.r > c.w then c.r else cap) - c.w
  }

  /** `reset_wo_lock()`, which `write`, `read`, `read_ptr`, `write_ptr` and `defrag` run on an empty buffer. */
  function ResetIfEmpty(c: Cursors): (d: Cursors)
    ensures EmptyOf(c) ==> d == Cursors(0, 0, false)
    ensures !EmptyOf(c) ==> d == c
  {
    if EmptyOf(c) then Cursors(0, 0, false) else c
  }

  /** The cursors after `read`/`read_ptr` hand out `k` bytes: the read cursor moves on, and any byte taken clears `full`. */
  function AdvanceRead(c: Cursors, cap: nat, k: nat): (d: Cursors)
    requires c.r < cap && k <= cap
  {
    Cursors(Wrap(c.r + k, cap), c.w, c.full && k == 0)
  }

  /** The cursors after `defrag` as the source writes them: the write cursor becomes the size, `cap` for a full buffer. */
  function DefragAsWritten(c: Cursors, cap: nat): (d: Cursors)
    requires WellFormed(c, cap)
    ensures d.r == 0 && d.w <= cap && d.full == c.full
    ensures SizeOf(d, cap) == SizeOf(c, cap)
    ensures c.full ==> d.w == cap
  {
    if EmptyOf(c) then Cursors(0, 0, false) else Cursors(0, SizeOf(c, cap), c.full)
  }

  /** The cursors after the repaired `defrag`: the write cursor becomes the size, wrapped into the array. */
  function DefragCursors(c: Cursors, cap: nat): (d: Cursors)
    requires WellFormed(c, cap)
    ensures WellFormed(d, cap)
    ensures d.r == 0 && SizeOf(d, cap) == SizeOf(c, cap)
    ensures !EmptyOf(d) ==> ContinuousSizeOf(d, cap) == SizeOf(d, cap)
  {
    if EmptyOf(c) then Cursors(0, 0, false) else Cursors(0, Wrap(SizeOf(c, cap), cap), c.full)
  }

  /** Bytes granted by `write_ptr` as the source writes it: the run after the write cursor, `full` or not. */
  function WritePtrGrantAsWritten(c: Cursors, cap: nat, req: nat): (n: nat)
    requires WellFormed(c, cap)
    ensures n <= req && ResetIfEmpty(c).w + n <= cap
    ensures !c.full ==> n <= cap - SizeOf(c, cap)
    ensures c.full ==> n == Min(cap - c.w, req)
  {
    Min(ContinuousFreeSizeOf(ResetIfEmpty(c), cap), req)
  }

  /** Bytes granted by the repaired `write_ptr`: the public `continuous_free_size()`, which is 0 on a full buffer. */
  function WritePtrGrant(c: Cursors, cap: nat, req: nat): (n: nat)
    requires WellFormed(c, cap)
    ensures n <= req && n <= cap - SizeOf(c, cap)
    ensures c.full ==> n == 0
  {
    var d := ResetIfEmpty(c);
    Min(if d.full then 0 else ContinuousFreeSizeOf(d, cap), req)
  }

  /** The byte sequence of length `len` that starts at `start` in the circular array `s`. */
  function Window(s: seq<Byte>, start: nat, len: nat): (w: seq<Byte>)
    requires start < |s| && len <= |s|
    ensures |w| == len
  {
    seq(len, i requires 0 <= i < len => s[Wrap(start + i, |s|)])
  }

  /** How far `k` lies after `at`, going forward around an array of `cap` bytes. */
  function Offset(k: nat, at: nat, cap: nat): (d: nat)
    requires k < cap && at < cap
    ensures d < cap && Wrap(at + d, cap) == k
  {
    if k >= at then k - at else k + cap - at
  }

  /** The array `s` with `x` copied over it at `at` (one `memcpy`). */
  function Paste(s: seq<Byte>, at: nat, x: seq<Byte>): (t: seq<Byte>)
    requires at + |x| <= |s|
    ensures |t| == |s|
  {
    s[..at] + x + s[at + |x|..]
  }

  /** The array after `data` is copied in at `at`, the part past the end going to the start (the two `memcpy` of `write`). */
  function Overwrite(s: seq<Byte>, at: nat, data: seq<Byte>): (t: seq<Byte>)
    requires at < |s| && |data| <= |s|
    ensures |t| == |s|
  {
    if at + |data| <= |s| then Paste(s, at, data)
    else Paste(Paste(s, at, data[..|s| - at]), 0, data[|s| - at..])
  }

  /** The `len` bytes from `start` as one slice, or two when they cross the end (what `read` and `defrag` copy out). */
  function Gather(s: seq<Byte>, start: nat, len: nat): (w: seq<Byte>)
    requires start < |s| && len <= |s|
  {
    if start + len <= |s| then s[start..start + len] else s[start..] + s[..len - (|s| - start)]
  }

  /** Two copies side by side are one copy of both. */
  lemma PasteAdjacent(s: seq<Byte>, at: nat, x: seq<Byte>, y: seq<Byte>)
    requires at + |x| + |y| <= |s|
    ensures Paste(Paste(s, at, x), at + |x|, y) == Paste(s, at, x + y)
  {
    var t := Paste(s, at, x);
    assert t[..at + |x|] == s[..at] + x;
    assert t[at + |x| + |y|..] == s[at + |x| + |y|..];
  }

  /** Moving the bytes from `r` to the start, then the first `w` bytes after them, lays the wrapped window out flat. */
  lemma WrappedLayout(s: seq<Byte>, r: nat, w: nat)
    requires w <= r < |s|
    ensures Paste(Paste(s, 0, s[r..|s|]), |s| - r, s[..w]) == Paste(s, 0, Gather(s, r, |s| - r + w))
  {
    PasteAdjacent(s, 0, s[r..|s|], s[..w]);
    if w == 0 {
      assert s[r..|s|] + s[..w] == s[r..r + (|s| - r + w)];
    } else {
      assert s[r..|s|] + s[..w] == s[r..] + s[..(|s| - r + w) - (|s| - r)];
    }
  }

  /** The slices copied out by the source are the window. */
  lemma MovedLayout(s0: seq<Byte>, s1: seq<Byte>, head: seq<Byte>, r: nat, w: nat)
    requires w <= r < |s0|
    requires s1 == Paste(s0, 0, s0[r..r + (|s0| - r)]) && head == s0[..w]
    ensures Paste(s1, |s0| - r, head) == Paste(s0, 0, Gather(s0, r, |s0| - r + w))
  {
    assert s0[r..r + (|s0| - r)] == s0[r..|s0|];
    WrappedLayout(s0, r, w);
  }

  /** The two copies of `read` put the window at the front of dst. */
  lemma CopyOutLayout(s: seq<Byte>, d0: seq<Byte>, d1: seq<Byte>, d2: seq<Byte>, r: nat, n: nat)
    requires r < |s| && n <= |s| && n <= |d0|
    requires d1 == Paste(d0, 0, s[r..r + Min(|s| - r, n)])
    requires Min(|s| - r, n) < n ==> d2 == Paste(d1, Min(|s| - r, n), s[0..n - Min(|s| - r, n)])
    requires Min(|s| - r, n) == n ==> d2 == d1
    ensures d2 == Paste(d0, 0, Window(s, r, n))
  {
    var m := Min(|s| - r, n);
    GatherIsWindow(s, r, n);
    if m < n {
      PasteAdjacent(d0, 0, s[r..r + m], s[0..n - m]);
      assert s[r..r + m] + s[0..n - m] == Gather(s, r, n);
    } else {
      assert s[r..r + m] == Gather(s, r, n);
    }
  }

  lemma GatherIsWindow(s: seq<Byte>, start: nat, len: nat)
    requires start < |s| && len <= |s|
    ensures Gather(s, start, len) == Window(s, start, len)
  {
    var g, w := Gather(s, start, len), Window(s, start, len);
    assert |g| == len;
    forall i | 0 <= i < len ensures g[i] == w[i] {
      assert w[i] == s[Wrap(start + i, |s|)];
      if start + i >= |s| {
        assert g[i] == s[start + i - |s|];
      } else {
        assert g[i] == s[start + i];
      }
    }
  }

  /** Byte `k` of `Paste(s, at, x)`. */
  lemma PasteAt(s: seq<Byte>, at: nat, x: seq<Byte>, k: nat)
    requires at + |x| <= |s| && k < |s|
    ensures Paste(s, at, x)[k] == if at <= k < at + |x| then x[k - at] else s[k]
  {
  }

  /** Byte `k` of `Overwrite(s, at, data)`: from `data` when `k` is among the first `|data|` positions from `at`. */
  lemma OverwriteAt(s: seq<Byte>, at: nat, data: seq<Byte>, k: nat)
    requires at < |s| && |data| <= |s| && k < |s|
    ensures Overwrite(s, at, data)[k] == if Offset(k, at, |s|) < |data| then data[Offset(k, at, |s|)] else s[k]
  {
    var m := |s| - at;
    if at + |data| <= |s| {
      PasteAt(s, at, data, k);
    } else {
      var t := Paste(s, at, data[..m]);
      PasteAt(t, 0, data[m..], k);
      if k >= |data| - m {
        PasteAt(s, at, data[..m], k);
      }
    }
  }

  /** A window of `a + b` bytes is its first `a` bytes followed by the `b` bytes after them. */
  lemma WindowSplit(s: seq<Byte>, start: nat, a: nat, b: nat)
    requires start < |s| && a + b <= |s|
    ensures Window(s, start, a + b) == Window(s, start, a) + Window(s, Wrap(start + a, |s|), b)
  {
    var w, u, v := Window(s, start, a + b), Window(s, start, a), Window(s, Wrap(start + a, |s|), b);
    forall i | 0 <= i < a + b ensures w[i] == (u + v)[i] {
      if i >= a {
        assert Wrap(Wrap(start + a, |s|) + (i - a), |s|) == Wrap(start + i, |s|);
      }
    }
  }

  /** A window that does not cross the end of the array is a plain slice. */
  lemma WindowContiguous(s: seq<Byte>, start: nat, len: nat)
    requires start < |s| && start + len <= |s|
    ensures Window(s, start, len) == s[start..start + len]
  {
    var w := Window(s, start, len);
    forall i | 0 <= i < len ensures w[i] == s[start..start + len][i] {
      assert Wrap(start + i, |s|) == start + i;
    }
  }

  /**
   * Copying `data` in at the write cursor appends it to the live bytes and
   * leaves them untouched, provided it fits in the free space.
   */
  lemma OverwriteAppends(s: seq<Byte>, c: Cursors, data: seq<Byte>)
    requires |s| > 0 && WellFormed(c, |s|) && |data| <= |s| - SizeOf(c, |s|)
    ensures Window(Overwrite(s, c.w, data), c.r, SizeOf(c, |s|) + |data|) == Window(s, c.r, SizeOf(c, |s|)) + data
  {
    var cap, n := |s|, SizeOf(c, |s|);
    var t := Overwrite(s, c.w, data);
    WriteCursorFollowsContents(c, cap);
    WindowSplit(t, c.r, n, |data|);
    forall i | 0 <= i < n ensures Window(t, c.r, n)[i] == Window(s, c.r, n)[i] {
      OverwriteAt(s, c.w, data, Wrap(c.r + i, cap));
      assert Offset(Wrap(c.r + i, cap), c.w, cap) >= |data|;
    }
    forall j | 0 <= j < |data| ensures Window(t, c.w, |data|)[j] == data[j] {
      OverwriteAt(s, c.w, data, Wrap(c.w + j, cap));
      assert Offset(Wrap(c.w + j, cap), c.w, cap) == j;
    }
  }

  /** The write cursor sits `size` bytes after the read cursor, whether the buffer is empty, partial or full. */
  lemma WriteCursorFollowsContents(c: Cursors, cap: nat)
    requires WellFormed(c, cap)
    ensures c.w == Wrap(c.r + SizeOf(c, cap), cap)
  {
  }

  /** Moving the write cursor on by `k` free bytes adds `k` live bytes; the buffer is full when none are left free. */
  lemma AdvanceWriteSize(c: Cursors, cap: nat, k: nat)
    requires WellFormed(c, cap) && !c.full && k <= cap - SizeOf(c, cap)
    ensures var d := Cursors(c.r, Wrap(c.w + k, cap), SizeOf(c, cap) + k == cap);
            WellFormed(d, cap) && SizeOf(d, cap) == SizeOf(c, cap) + k
    ensures k < cap - SizeOf(c, cap) ==> SizeOf(Cursors(c.r, Wrap(c.w + k, cap), false), cap) == SizeOf(c, cap) + k
    ensures 0 < k == cap - SizeOf(c, cap) ==> EmptyOf(Cursors(c.r, Wrap(c.w + k, cap), false))
  {
    WriteCursorFollowsContents(c, cap);
  }

  /** After advancing the read cursor by `k` of the `SizeOf(c)` live bytes, `SizeOf(c) - k` remain. */
  lemma AdvanceReadSize(c: Cursors, cap: nat, k: nat)
    requires WellFormed(c, cap) && k <= SizeOf(c, cap)
    ensures WellFormed(AdvanceRead(c, cap, k), cap)
    ensures SizeOf(AdvanceRead(c, cap, k), cap) == SizeOf(c, cap) - k
  {
    WriteCursorFollowsContents(c, cap);
  }

  /** A copy into the front of d0 leaves the rest of it alone. */
  lemma PasteFront(d0: seq<Byte>, x: seq<Byte>)
    requires |x| <= |d0|
    ensures Paste(d0, 0, x)[..|x|] == x && Paste(d0, 0, x)[|x|..] == d0[|x|..]
  {
  }

  /** The buffer contents after `read` consumes n bytes, with the new
    * cursors d. */
  lemma ReadLayout(s: seq<Byte>, c: Cursors, d: Cursors, n: nat)
    requires |s| > 0 && WellFormed(c, |s|) && n <= SizeOf(c, |s|)
    requires d == Cursors((c.r + n) % |s|, c.w, if n > 0 then false else c.full)
    ensures WellFormed(d, |s|)
    ensures Window(s, d.r, SizeOf(d, |s|)) == Window(s, c.r, SizeOf(c, |s|))[n..]
    ensures Window(s, c.r, SizeOf(c, |s|))[..n] == Window(s, c.r, n)
  {
    ReadStep(s, c, n);
    WrapIsMod(c.r + n, |s|);
  }

  /** Handing out the first `n` live bytes leaves the rest, in order. */
  lemma ReadStep(s: seq<Byte>, c: Cursors, n: nat)
    requires |s| > 0 && WellFormed(c, |s|) && n <= SizeOf(c, |s|)
    ensures var d := AdvanceRead(c, |s|, n);
            WellFormed(d, |s|) &&
            Window(s, d.r, SizeOf(d, |s|)) == Window(s, c.r, SizeOf(c, |s|))[n..] &&
            Window(s, c.r, SizeOf(c, |s|))[..n] == Window(s, c.r, n)
  {
    AdvanceReadSize(c, |s|, n);
    WindowSplit(s, c.r, n, SizeOf(c, |s|) - n);
  }

  /** Resetting the cursors of an empty buffer leaves the contents empty. */
  lemma ResetKeepsWindow(s: seq<Byte>, c: Cursors)
    requires |s| > 0 && WellFormed(c, |s|)
    ensures WellFormed(ResetIfEmpty(c), |s|)
    ensures Window(s, ResetIfEmpty(c).r, SizeOf(ResetIfEmpty(c), |s|)) == Window(s, c.r, SizeOf(c, |s|))
  {
  }

  /** The buffer and cursors after `write` copies `data`. */
  lemma AppendLayout(s0: seq<Byte>, s1: seq<Byte>, c: Cursors, d: Cursors, data: seq<Byte>, req: nat)
    requires |s0| > 0 && WellFormed(c, |s0|) && !c.full && |data| == Min(req, |s0| - SizeOf(c, |s0|))
    requires s1 == Overwrite(s0, c.w, data)
    requires d == Cursors(c.r, (c.w + |data|) % |s0|, |s0| - SizeOf(c, |s0|) <= req)
    ensures |s1| == |s0| && WellFormed(d, |s0|)
    ensures Window(s1, d.r, SizeOf(d, |s0|)) == Window(s0, c.r, SizeOf(c, |s0|)) + data
  {
    WriteStep(s0, c, data, req);
    WrapIsMod(c.w + |data|, |s0|);
  }

  /**
   * Copying in the `min(req, free)` bytes of `data` appends them to the live
   * bytes; `full` is set exactly when the request reached the free space.
   */
  lemma WriteStep(s: seq<Byte>, c: Cursors, data: seq<Byte>, req: nat)
    requires |s| > 0 && WellFormed(c, |s|) && !c.full && |data| == Min(req, |s| - SizeOf(c, |s|))
    ensures var d := Cursors(c.r, Wrap(c.w + |data|, |s|), |s| - SizeOf(c, |s|) <= req);
            WellFormed(d, |s|) &&
            Window(Overwrite(s, c.w, data), d.r, SizeOf(d, |s|)) == Window(s, c.r, SizeOf(c, |s|)) + data
  {
    AdvanceWriteSize(c, |s|, |data|);
    OverwriteAppends(s, c, data);
  }

  /** The buffer contents after `write_ptr` grants n bytes, with the new
    * cursors d. */
  lemma WritePtrLayout(s: seq<Byte>, c: Cursors, d: Cursors, n: nat)
    requires |s| > 0 && WellFormed(c, |s|) && !c.full && c.w + n <= |s| && n <= |s| - SizeOf(c, |s|)
    requires d == Cursors(c.r, (c.w + n) % |s|, false)
    ensures WellFormed(d, |s|)
    ensures n < |s| - SizeOf(c, |s|) ==> Window(s, d.r, SizeOf(d, |s|)) == Window(s, c.r, SizeOf(c, |s|)) + s[c.w..c.w + n]
    ensures 0 < n == |s| - SizeOf(c, |s|) ==> EmptyOf(d)
  {
    WritePtrStep(s, c, n);
    WrapIsMod(c.w + n, |s|);
  }

  /**
   * Counting the `n` free bytes after the write cursor as written appends
   * them to the live bytes, unless they close the free space: `full` stays
   * clear, so the buffer then reads as empty.
   */
  lemma WritePtrStep(s: seq<Byte>, c: Cursors, n: nat)
    requires |s| > 0 && WellFormed(c, |s|) && !c.full && c.w + n <= |s| && n <= |s| - SizeOf(c, |s|)
    ensures var d := Cursors(c.r, Wrap(c.w + n, |s|), false);
            WellFormed(d, |s|) &&
            (n < |s| - SizeOf(c, |s|) ==> Window(s, d.r, SizeOf(d, |s|)) == Window(s, c.r, SizeOf(c, |s|)) + s[c.w..c.w + n]) &&
            (0 < n == |s| - SizeOf(c, |s|) ==> EmptyOf(d))
  {
    AdvanceWriteSize(c, |s|, n);
    if n < |s| - SizeOf(c, |s|) {
      WriteCursorFollowsContents(c, |s|);
      WindowSplit(s, c.r, SizeOf(c, |s|), n);
      WindowContiguous(s, c.w, n);
    }
  }

  /** A second `defrag` finds the cursors it would produce and changes nothing. */
  lemma DefragIdempotent(c: Cursors, cap: nat)
    requires WellFormed(c, cap)
    ensures DefragCursors(DefragCursors(c, cap), cap) == DefragCursors(c, cap)
  {
  }

  /** Reading the whole content right after the repaired `defrag` leaves an empty buffer. */
  lemma DefragThenDrainIsEmpty(c: Cursors, cap: nat)
    requires WellFormed(c, cap)
    ensures var d := DefragCursors(c, cap);
            EmptyOf(AdvanceRead(d, cap, SizeOf(d, cap))) || SizeOf(d, cap) == 0
  {
    var d := DefragCursors(c, cap);
    AdvanceReadSize(d, cap, SizeOf(d, cap));
  }

  /**
   * The `defrag` of a full buffer as written leaves `w_idx_ == max_size_`;
   * reading all `cap` bytes afterwards puts the read cursor back at 0 with
   * `full_` cleared, so the buffer again reports `cap` live bytes, the ones
   * already read.
   */
  lemma DefragAsWrittenReplaysDrainedBytes(cap: nat, x: nat)
    requires x < cap
    ensures var c := Cursors(x, x, true);
            var d := DefragAsWritten(c, cap);
            var e := AdvanceRead(d, cap, cap);
            d.w == cap && SizeOf(d, cap) == cap && !e.full && SizeOf(e, cap) == cap
  {
  }

  /**
   * `write_ptr` as written hands out the run after the write cursor of a full
   * buffer, whose bytes are all unread, and its cursors then break `full ==> r == w`.
   */
  lemma WritePtrAsWrittenOverwritesLiveBytes(cap: nat, x: nat)
    requires 0 < x < cap
    ensures var c := Cursors(x, x, true);
            SizeOf(c, cap) == cap &&
            WritePtrGrantAsWritten(c, cap, cap) == cap - x &&
            !WellFormed(Cursors(x, Wrap(x + (cap - x), cap), true), cap)
  {
  }

  /** `continuous_free()` as the source writes it: `r == 0 || r < w || empty`. */
  function ContinuousFreeAsWritten(c: Cursors): bool
  {
    c.r == 0 || c.r < c.w || EmptyOf(c)
  }

  /**
   * The repaired `continuous_free()`: the free bytes form one run, so that
   * `write_ptr` (which first resets an empty buffer) can grant all of them
   * at once. The source's `r < w` is turned round to `r > w`, and a full
   * buffer, with no free byte, counts as contiguous.
   */
  function ContinuousFreeOf(c: Cursors, cap: nat): (b: bool)
    requires WellFormed(c, cap)
    ensures b <==> WritePtrGrant(c, cap, cap) == cap - SizeOf(c, cap)
  {
    c.r == 0 || c.r > c.w || EmptyOf(c) || c.full
  }

  /**
   * `continuous_free()` as written answers correctly only when the read
   * cursor is 0 or the buffer is empty. With 8 bytes, r = 2 and w = 5 it
   * reports contiguous free space although the run after w holds 3 of the 5
   * free bytes; with r = 5 and w = 2 it reports a split although all 3 free
   * bytes lie in one run.
   */
  lemma ContinuousFreeAsWrittenMisjudges(c: Cursors, cap: nat)
    requires WellFormed(c, cap)
    ensures ContinuousFreeAsWritten(c) == ContinuousFreeOf(c, cap) <==> c.r == 0 || EmptyOf(c)
    ensures ContinuousFreeAsWritten(Cursors(2, 5, false)) && WritePtrGrant(Cursors(2, 5, false), 8, 8) == 3
    ensures 8 - SizeOf(Cursors(2, 5, false), 8) == 5
    ensures !ContinuousFreeAsWritten(Cursors(5, 2, false)) && WritePtrGrant(Cursors(5, 2, false), 8, 8) == 3
    ensures 8 - SizeOf(Cursors(5, 2, false), 8) == 3
  {
  }

  /**
   * A `RingBuffer` of `maxSize` bytes. `Contents()` is the sequence of live
   * bytes in FIFO order: `Size()` bytes from the read cursor, wrapping at the
   * end of the array.
   */
  class RingBuffer {
    const maxSize: nat
    const buf: array<Byte>
    var rIdx: nat
    var wIdx: nat
    var isFull: bool

    ghost predicate Valid()
      reads this
    {
      buf.Length == maxSize && WellFormed(Cur(), maxSize)
    }

    function Cur(): Cursors
      reads this
    {
      Cursors(rIdx, wIdx, isFull)
    }

    ghost function Contents(): (s: seq<Byte>)
      reads this, buf
      requires Valid()
      ensures |s| == SizeOf(Cur(), maxSize)
    {
      Window(buf[..], rIdx, SizeOf(Cur(), maxSize))
    }

    constructor (size: nat)
      requires size > 0
      ensures Valid() && fresh(buf)
      ensures maxSize == size && Contents() == []
      ensures rIdx == 0 && wIdx == 0 && !isFull
    {
      maxSize := size;
      buf := new Byte[size];
      rIdx, wIdx, isFull := 0, 0, false;
    }

    /** `size()`: the number of live bytes, `full ? max_size : (w - r) mod max_size`. */
    function Size(): (n: nat)
      reads this
      requires Valid()
      ensures n == |Contents()| && n <= maxSize
    {
      SizeOf(Cur(), maxSize)
    }

    /** `max_size()`. */
    function MaxSize(): (n: nat)
      reads this
      requires Valid()
      ensures n == Size() + FreeSize()
    {
      maxSize
    }

    /** `free_size()`: what a `write` may still store. */
    function FreeSize(): (n: nat)
      reads this
      requires Valid()
      ensures n == maxSize - |Contents()|
      ensures n == 0 <==> isFull
    {
      maxSize - SizeOf(Cur(), maxSize)
    }

    /** `empty()`. */
    function Empty(): (b: bool)
      reads this
      requires Valid()
      ensures b <==> Contents() == []
    {
      EmptyOf(Cur())
    }

    /** `full()`. */
    function Full(): (b: bool)
      reads this
      requires Valid()
      ensures b <==> |Contents()| == maxSize
    {
      isFull
    }

    /**
     * `continuous_size()`: the live bytes stored contiguously from the read
     * cursor; on a non-empty buffer they are the first bytes of the contents.
     */
    function ContinuousSize(): (n: nat)
      reads this, buf
      requires Valid()
      ensures rIdx + n <= maxSize
      ensures !Empty() ==> 0 < n <= Size() && buf[rIdx..rIdx + n] == Contents()[..n]
    {
      var n := ContinuousSizeOf(Cur(), maxSize);
      assert !Empty() ==> buf[rIdx..rIdx + n] == Contents()[..n] by {
        if !Empty() {
          forall i | 0 <= i < n ensures buf[rIdx..rIdx + n][i] == Contents()[..n][i] {
            assert Wrap(rIdx + i, maxSize) == rIdx + i;
          }
        }
      }
      n
    }

    /** `continuous_free_size()`: the free bytes stored contiguously after the write cursor, 0 when full. */
    function ContinuousFreeSize(): (n: nat)
      reads this
      requires Valid()
      ensures wIdx + n <= maxSize && n <= FreeSize()
      ensures n == 0 <==> isFull
    {
      if isFull then 0 else ContinuousFreeSizeOf(Cur(), maxSize)
    }

    /**
     * `continuous()`. The source writes `w > r || r == w == 0`, and C++ reads
     * `r == w == 0` as `(r == w) == false`, so the test is `r != w`: it
     * reports a buffer that is neither empty nor full, contiguous or not.
     */
    function Continuous(): (b: bool)
      reads this
      requires Valid()
      ensures b <==> rIdx != wIdx
      ensures b <==> !Empty() && !Full()
    {
      wIdx > rIdx || ((rIdx == wIdx) == false)
    }

    /**
     * `continuous_free()`, repaired (see `ContinuousFreeOf`): whether the
     * next `write_ptr` can hand out the whole free space in one run.
     */
    function ContinuousFree(): (b: bool)
      reads this
      requires Valid()
      ensures b <==> WritePtrGrant(Cur(), maxSize, maxSize) == FreeSize()
    {
      ContinuousFreeOf(Cur(), maxSize)
    }

    /** `reset_wo_lock()` and the public `clear()`. */
    method Clear()
      requires Valid()
      modifies this
      ensures Valid() && Contents() == []
      ensures rIdx == 0 && wIdx == 0 && !isFull
    {
      rIdx, wIdx, isFull := 0, 0, false;
    }

    /**
     * `write(src, size)`: stores `min(size, free_size())` bytes of `src` after
     * the live bytes and returns that count; nothing is stored when the
     * buffer is full or `src` is null. `full` is set exactly when the request
     * reached the free space.
     */
    method Write(src: array?<Byte>, size: nat) returns (n: nat)
      requires Valid()
      requires src != null ==> size <= src.Length && src != buf
      modifies this, buf
      ensures Valid()
      ensures n == if old(isFull) || src == null then 0 else Min(size, old(FreeSize()))
      ensures src != null ==> Contents() == old(Contents()) + src[..n]
      ensures src == null ==> Contents() == old(Contents())
      ensures isFull == (old(isFull) || (src != null && old(FreeSize()) <= size))
      ensures rIdx == ResetIfEmpty(old(Cur())).r
    {
      var c := ResetIfEmpty(Cur());
      if c.full || src == null {
        rIdx, wIdx, isFull := c.r, c.w, c.full;
        return 0;
      }
      ResetKeepsWindow(buf[..], Cur());
      n := Append(c, src, size);
    }

    /** The copying part of `write`, from cursors c that are not full. */
    method Append(c: Cursors, src: array<Byte>, size: nat) returns (n: nat)
      requires buf.Length == maxSize && maxSize > 0 && WellFormed(c, maxSize) && !c.full
      requires size <= src.Length && src != buf
      modifies this, buf
      ensures n == Min(size, maxSize - SizeOf(c, maxSize))
      ensures Valid() && Contents() == Window(old(buf[..]), c.r, SizeOf(c, maxSize)) + src[..n]
      ensures isFull == (maxSize - SizeOf(c, maxSize) <= size)
      ensures rIdx == c.r
    {
      ghost var s0 := buf[..];
      var size0 := SizeOf(c, maxSize);
      n := Min(size, maxSize - size0);
      CopyIn(buf, c.w, src, n);
      var d := Cursors(c.r, (c.w + n) % maxSize, maxSize - size0 <= size);
      AppendLayout(s0, buf[..], c, d, src[..n], size);
      rIdx, wIdx, isFull := d.r, d.w, d.full;
    }

    /**
     * `read(dst, size)`: copies the first `min(size, size())` live bytes into
     * `dst`, removes them and returns their count. A null `dst` changes
     * nothing; an empty buffer only has its cursors reset.
     */
    method Read(dst: array?<Byte>, size: nat) returns (n: nat)
      requires Valid()
      requires dst != null ==> size <= dst.Length && dst != buf
      modifies this, dst
      ensures Valid()
      ensures n == if dst == null then 0 else Min(size, old(Size()))
      ensures dst != null ==> dst[..n] == old(Contents())[..n] && dst[n..] == old(dst[n..])
      ensures Contents() == old(Contents())[n..]
      ensures dst == null ==> Cur() == old(Cur())
      ensures dst != null && old(Empty()) ==> Cur() == Cursors(0, 0, false)
      ensures isFull == (old(isFull) && n == 0)
    {
      if dst == null {
        return 0;
      }
      if EmptyOf(Cur()) {
        rIdx, wIdx, isFull := 0, 0, false;
        return 0;
      }
      var c := Cur();
      n := Min(size, SizeOf(c, maxSize));
      ghost var d0 := dst[..];
      CopyOut(dst, buf, c.r, n);
      PasteFront(d0, Window(buf[..], c.r, n));
      var d := Cursors((c.r + n) % maxSize, c.w, if n > 0 then false else c.full);
      ReadLayout(buf[..], c, d, n);
      rIdx, isFull := d.r, d.full;
    }

    /**
     * `read_ptr(size)`: hands out, as the index `pos` into the array, the
     * next `n` live bytes that lie contiguously (the request clamped to
     * `continuous_size()`), and removes them. On an empty buffer the cursors
     * are reset first and up to `max_size` stale bytes are handed out.
     */
    method ReadPtr(size: nat) returns (pos: nat, n: nat)
      requires Valid()
      modifies this
      ensures Valid() && pos + n <= maxSize
      ensures !EmptyOf(old(Cur())) ==> pos == old(rIdx) && n == Min(size, ContinuousSizeOf(old(Cur()), maxSize))
      ensures !EmptyOf(old(Cur())) ==> buf[pos..pos + n] == old(Contents())[..n] && Contents() == old(Contents())[n..]
      ensures EmptyOf(old(Cur())) ==> pos == 0 && n == Min(size, maxSize) && Cur() == Cursors(Wrap(n, maxSize), 0, false)
      ensures isFull == (old(isFull) && n == 0)
      ensures Cur() == AdvanceRead(ResetIfEmpty(old(Cur())), maxSize, n)
    {
      var c := ResetIfEmpty(Cur());
      pos := c.r;
      n := Min(ContinuousSizeOf(c, maxSize), size);
      var d := Cursors((c.r + n) % maxSize, c.w, if n > 0 then false else c.full);
      WrapIsMod(c.r + n, maxSize);
      if !EmptyOf(c) {
        ReadLayout(buf[..], c, d, n);
        WindowContiguous(buf[..], c.r, n);
      }
      rIdx, wIdx, isFull := d.r, d.w, d.full;
    }

    /**
     * `write_ptr(size)`, repaired to grant the public `continuous_free_size()`
     * (0 when full) rather than the unguarded private helper: hands out, as
     * the index `pos`, a run of `n` free bytes after the live ones and counts
     * them as written. `full` is never set, so a grant that closes the free
     * space leaves a buffer that reads as empty.
     */
    method WritePtr(size: nat) returns (pos: nat, n: nat)
      requires Valid()
      modifies this
      ensures Valid() && pos + n <= maxSize
      ensures n == WritePtrGrant(old(Cur()), maxSize, size)
      ensures pos == if old(Empty()) then 0 else old(wIdx)
      ensures isFull == old(isFull)
      ensures n < old(FreeSize()) ==> Contents() == old(Contents()) + buf[pos..pos + n]
      ensures 0 < n == old(FreeSize()) ==> Contents() == []
      ensures old(isFull) ==> n == 0 && Cur() == old(Cur()) && Contents() == old(Contents())
    {
      var c := ResetIfEmpty(Cur());
      pos := c.w;
      n := Min(if c.full then 0 else ContinuousFreeSizeOf(c, maxSize), size);
      var d := Cursors(c.r, (c.w + n) % maxSize, c.full);
      WrapIsMod(c.w + n, maxSize);
      if c.full {
        assert d == c;
      } else {
        WritePtrLayout(buf[..], c, d, n);
      }
      rIdx, wIdx, isFull := d.r, d.w, d.full;
    }

    /**
     * `defrag()`: moves the live bytes to the start of the array, keeping
     * their order, so that they are all contiguous. The bytes after them keep
     * their old values. Repaired: the write cursor becomes `size % max_size`
     * where the source writes `size` (see `DefragAsWritten`).
     */
    method Defrag()
      requires Valid()
      modifies this, buf
      ensures Valid()
      ensures Cur() == DefragCursors(old(Cur()), maxSize)
      ensures Contents() == old(Contents())
      ensures buf[..Size()] == old(Contents())
      ensures buf[Size()..] == old(buf[Size()..])
      ensures old(rIdx) == 0 ==> buf[..] == old(buf[..])
    {
      if EmptyOf(Cur()) {
        rIdx, wIdx, isFull := 0, 0, false;
        return;
      }
      var c := Cur();
      var size := SizeOf(c, maxSize);
      ghost var s0 := buf[..];
      Compact(buf, c);
      if c.r == 0 {
        WindowContiguous(s0, 0, size);
        assert Paste(s0, 0, s0[0..size]) == s0;
      }
      WindowContiguous(buf[..], 0, size);
      WrapIsMod(size, maxSize);
      rIdx, wIdx := 0, size % maxSize;
    }
  }

  /** The two `memcpy` of `write`: `data` goes in at `at`, the part past the end of the array at its start. */
  method CopyIn(buf: array<Byte>, at: nat, src: array<Byte>, n: nat)
    requires buf != src && at < buf.Length && n <= buf.Length && n <= src.Length
    modifies buf
    ensures buf[..] == Overwrite(old(buf[..]), at, src[..n])
  {
    ghost var s0, data := buf[..], src[..n];
    var m := Min(buf.Length - at, n);
    Copy(buf, at, src, 0, m);
    assert src[0..m] == data[..m];
    if at + n > buf.Length {
      ghost var s1 := buf[..];
      Copy(buf, 0, src, m, n - m);
      assert src[m..m + (n - m)] == data[m..];
      assert buf[..] == Paste(s1, 0, data[m..]);
    }
  }

  /** The two `memcpy` of `read`: the `n` bytes from `r`, wrapping at the end of `buf`, go to the start of `dst`. */
  method CopyOut(dst: array<Byte>, buf: array<Byte>, r: nat, n: nat)
    requires dst != buf && r < buf.Length && n <= buf.Length && n <= dst.Length
    modifies dst
    ensures dst[..] == Paste(old(dst[..]), 0, Window(buf[..], r, n))
  {
    ghost var d0 := dst[..];
    var m := Min(buf.Length - r, n);
    Copy(dst, 0, buf, r, m);
    ghost var d1 := dst[..];
    if m < n {
      Copy(dst, m, buf, 0, n - m);
    }
    CopyOutLayout(buf[..], d0, d1, dst[..], r, n);
  }

  /**
   * The moves of `defrag` on a non-empty buffer: the live bytes go to the
   * start of the array in order, through a temporary copy of the part that
   * had wrapped; the rest of the array keeps its bytes.
   */
  method Compact(buf: array<Byte>, c: Cursors)
    requires WellFormed(c, buf.Length) && !EmptyOf(c)
    modifies buf
    ensures buf[..] == Paste(old(buf[..]), 0, Window(old(buf[..]), c.r, SizeOf(c, buf.Length)))
  {
    ghost var s0 := buf[..];
    if c.w > c.r {
      MoveDown(buf, c.r, c.w - c.r);
    } else {
      MoveWrapped(buf, c.r, c.w);
    }
    GatherIsWindow(s0, c.r, SizeOf(c, buf.Length));
  }

  /** The wrapped case of `defrag`: save the first `w` bytes, move the bytes from `r` down, put the saved bytes after them. */
  method MoveWrapped(buf: array<Byte>, r: nat, w: nat)
    requires w <= r < buf.Length
    modifies buf
    ensures buf[..] == Paste(old(buf[..]), 0, Gather(old(buf[..]), r, buf.Length - r + w))
  {
    ghost var s0 := buf[..];
    var temp := SaveHead(buf, w);
    ghost var head := temp[0..w];
    MoveDown(buf, r, buf.Length - r);
    ghost var s1 := buf[..];
    Copy(buf, buf.Length - r, temp, 0, w);
    MovedLayout(s0, s1, head, r, w);
  }

  /** A fresh copy of the first n bytes of a. */
  method SaveHead(a: array<Byte>, n: nat) returns (temp: array<Byte>)
    requires n <= a.Length
    ensures fresh(temp) && temp.Length == n && temp[0..n] == a[..n]
  {
    temp := new Byte[n];
    Copy(temp, 0, a, 0, n);
    assert temp[0..n] == temp[..];
  }


  /** `memcpy(dst + dstOff, src + srcOff, len)` between two distinct arrays. */
  method Copy(dst: array<Byte>, dstOff: nat, src: array<Byte>, srcOff: nat, len: nat)
    requires dst != src
    requires dstOff + len <= dst.Length && srcOff + len <= src.Length
    modifies dst
    ensures dst[..] == Paste(old(dst[..]), dstOff, src[srcOff..srcOff + len])
  {
    var i := 0;
    while i < len
      invariant 0 <= i <= len
      invariant forall k :: 0 <= k < dst.Length ==>
        dst[k] == if dstOff <= k < dstOff + i then src[srcOff + (k - dstOff)] else old(dst[k])
    {
      dst[dstOff + i] := src[srcOff + i];
      i := i + 1;
    }
    assert forall k :: 0 <= k < dst.Length ==> dst[..][k] == Paste(old(dst[..]), dstOff, src[srcOff..srcOff + len])[k];
  }

  /** `memmove(a, a + from, len)`: a copy towards the start of the same array, done front to back. */
  method MoveDown(a: array<Byte>, from: nat, len: nat)
    requires from + len <= a.Length
    modifies a
    ensures a[..] == Paste(old(a[..]), 0, old(a[from..from + len]))
  {
    var i := 0;
    while i < len
      invariant 0 <= i <= len
      invariant forall k :: 0 <= k < a.Length ==> a[k] == if k < i then old(a[from + k]) else old(a[k])
    {
      a[i] := a[from + i];
      i := i + 1;
    }
    assert forall k :: 0 <= k < a.Length ==> a[..][k] == Paste(old(a[..]), 0, old(a[from..from + len]))[k];
  }
}
