/**
  The line kernel of the 2048 engine: one row (or one column read in
  canonical order) slid toward its front, with adjacent equal tiles merged.

  A line is a sequence of cells; 0 is an empty cell, any other value a tile.
  `SlideLeft` and `SlideGain` are the reference definitions of the kernel:
  squeeze out the empty cells, merge equal neighbours pairwise from the
  front (`Merge`), and pad back to the original length with empty cells.
  `PassFrom` is the merge pass written the way the engine's loop runs it,
  index by index over the padded line, and `MergePass` the same pass as a
  recursion on the rest of the line; `PassFromSplit` connects the loop to
  the recursion and `PassOnCompacted` the recursion to `Merge`.
*/
module Line {

  // ---------------------------------------------------------------------
  // Sums, runs of empty cells, tiles
  // ---------------------------------------------------------------------

  /** Total value of the cells of a line. */
  function Sum(s: seq<int>): int
  {
    if s == [] then 0 else s[0] + Sum(s[1..])
  }

  lemma {:induction false} SumConcat(a: seq<int>, b: seq<int>)
    ensures Sum(a + b) == Sum(a) + Sum(b)
  {
    if a == [] {
      assert a + b == b;
    } else {
      assert (a + b)[1..] == a[1..] + b;
      SumConcat(a[1..], b);
    }
  }

  /** A run of `k` empty cells. */
  function Zeros(k: nat): seq<int>
  {
    seq(k, _ => 0)
  }

  lemma {:induction false} SumZeros(k: nat)
    ensures Sum(Zeros(k)) == 0
  {
    if k > 0 {
      assert Zeros(k)[1..] == Zeros(k - 1);
      SumZeros(k - 1);
    }
  }

  /** `v` is 1, 2, 4, 8, ... */
  predicate IsPowerOfTwo(v: int)
    decreases if v < 0 then 0 else v
  {
    v == 1 || (v > 1 && v % 2 == 0 && IsPowerOfTwo(v / 2))
  }

  /** A cell value: empty (0) or a tile 2, 4, 8, ... */
  predicate IsTile(v: int)
  {
    v == 0 || (v >= 2 && IsPowerOfTwo(v))
  }

  lemma DoubleTile(v: int)
    requires IsTile(v) && v != 0
    ensures IsTile(2 * v) && 2 * v > v
  {
    assert (2 * v) / 2 == v;
  }

  predicate AllTiles(s: seq<int>)
  {
    forall i :: 0 <= i < |s| ==> IsTile(s[i])
  }

  predicate NoZero(s: seq<int>)
  {
    forall i :: 0 <= i < |s| ==> s[i] != 0
  }

  /** No two neighbouring cells hold the same value. */
  predicate NoEqualNeighbours(s: seq<int>)
  {
    forall i :: 0 <= i < |s| - 1 ==> s[i] != s[i + 1]
  }

  // ---------------------------------------------------------------------
  // Compaction
  // ---------------------------------------------------------------------

  /** The tiles of a line in their original order, empty cells squeezed out. */
  function NonZero(s: seq<int>): (r: seq<int>)
    ensures |r| <= |s|
    ensures NoZero(r)
  {
    if s == [] then []
    else if s[0] == 0 then NonZero(s[1..])
    else [s[0]] + NonZero(s[1..])
  }

  lemma {:induction false} NonZeroConcat(a: seq<int>, b: seq<int>)
    ensures NonZero(a + b) == NonZero(a) + NonZero(b)
  {
    if a == [] {
      assert a + b == b;
    } else {
      assert (a + b)[1..] == a[1..] + b;
      NonZeroConcat(a[1..], b);
    }
  }

  lemma {:induction false} NonZeroZeros(k: nat)
    ensures NonZero(Zeros(k)) == []
  {
    if k > 0 {
      assert Zeros(k)[1..] == Zeros(k - 1);
      NonZeroZeros(k - 1);
    }
  }

  lemma {:induction false} NonZeroOfNoZero(s: seq<int>)
    requires NoZero(s)
    ensures NonZero(s) == s
  {
    if s != [] {
      NonZeroOfNoZero(s[1..]);
    }
  }

  lemma {:induction false} NonZeroSum(s: seq<int>)
    ensures Sum(NonZero(s)) == Sum(s)
  {
    if s != [] {
      NonZeroSum(s[1..]);
    }
  }

  lemma {:induction false} NonZeroTiles(s: seq<int>)
    requires AllTiles(s)
    ensures AllTiles(NonZero(s))
  {
    if s != [] {
      NonZeroTiles(s[1..]);
    }
  }

  /** A line that has an empty cell loses length when compacted. */
  lemma {:induction false} NonZeroShorter(s: seq<int>)
    requires !NoZero(s)
    ensures |NonZero(s)| < |s|
  {
    if s[0] != 0 {
      NonZeroShorter(s[1..]);
    }
  }

  /** `s` padded with empty cells up to length `n`. */
  function Pad(s: seq<int>, n: nat): seq<int>
    requires |s| <= n
  {
    s + Zeros(n - |s|)
  }

  lemma NonZeroPad(m: seq<int>, n: nat)
    requires NoZero(m) && |m| <= n
    ensures NonZero(Pad(m, n)) == m
  {
    NonZeroConcat(m, Zeros(n - |m|));
    NonZeroZeros(n - |m|);
    NonZeroOfNoZero(m);
  }

  lemma PadSum(m: seq<int>, n: nat)
    requires |m| <= n
    ensures Sum(Pad(m, n)) == Sum(m)
  {
    SumConcat(m, Zeros(n - |m|));
    SumZeros(n - |m|);
  }

  // ---------------------------------------------------------------------
  // Reference merge of compacted tiles
  // ---------------------------------------------------------------------

  /**
    Pairwise merge from the front: two equal leading tiles become one tile
    of twice the value, and the merged tile takes no further part.
  */
  function Merge(t: seq<int>): (r: seq<int>)
    ensures |r| <= |t|
  {
    if |t| < 2 then t
    else if t[0] == t[1] then [2 * t[0]] + Merge(t[2..])
    else [t[0]] + Merge(t[1..])
  }

  /** The points of `Merge(t)`: the sum of the doubled values it writes. */
  function Gain(t: seq<int>): int
  {
    if |t| < 2 then 0
    else if t[0] == t[1] then 2 * t[0] + Gain(t[2..])
    else Gain(t[1..])
  }

  lemma {:induction false} MergeNoZero(t: seq<int>)
    requires NoZero(t)
    ensures NoZero(Merge(t))
  {
    if |t| >= 2 {
      if t[0] == t[1] {
        MergeNoZero(t[2..]);
      } else {
        MergeNoZero(t[1..]);
      }
    }
  }

  lemma {:induction false} MergeSum(t: seq<int>)
    ensures Sum(Merge(t)) == Sum(t)
  {
    if |t| >= 2 {
      assert t == [t[0]] + t[1..];
      assert t[1..] == [t[1]] + t[2..];
      if t[0] == t[1] {
        MergeSum(t[2..]);
      } else {
        MergeSum(t[1..]);
      }
    }
  }

  lemma {:induction false} MergeTiles(t: seq<int>)
    requires AllTiles(t)
    ensures AllTiles(Merge(t))
  {
    if |t| >= 2 {
      if t[0] == t[1] {
        MergeTiles(t[2..]);
        if t[0] != 0 {
          DoubleTile(t[0]);
        }
      } else {
        MergeTiles(t[1..]);
      }
    }
  }

  lemma {:induction false} GainNonNegative(t: seq<int>)
    requires AllTiles(t)
    ensures Gain(t) >= 0
  {
    if |t| >= 2 {
      if t[0] == t[1] {
        GainNonNegative(t[2..]);
      } else {
        GainNonNegative(t[1..]);
      }
    }
  }

  /** A merge that changes the tiles always shortens them. */
  lemma {:induction false} MergeChangedShorter(t: seq<int>)
    requires Merge(t) != t
    ensures |Merge(t)| < |t|
  {
    if |t| >= 2 && t[0] != t[1] {
      assert t == [t[0]] + t[1..];
      MergeChangedShorter(t[1..]);
    }
  }

  /** On tiles, no points are scored exactly when no two tiles merge. */
  lemma {:induction false} GainZeroIffUnmerged(t: seq<int>)
    requires AllTiles(t) && NoZero(t)
    ensures Gain(t) == 0 <==> Merge(t) == t
  {
    if |t| >= 2 {
      assert t == [t[0]] + t[1..];
      if t[0] == t[1] {
        GainNonNegative(t[2..]);
        assert |Merge(t)| < |t|;
      } else {
        GainZeroIffUnmerged(t[1..]);
      }
    }
  }

  lemma {:induction false} MergeNoNeighbours(t: seq<int>)
    requires NoEqualNeighbours(t)
    ensures Merge(t) == t
    ensures Gain(t) == 0
  {
    if |t| >= 2 {
      assert t[0] != t[1];
      MergeNoNeighbours(t[1..]);
      assert t == [t[0]] + t[1..];
    }
  }

  // ---------------------------------------------------------------------
  // The slide of one line
  // ---------------------------------------------------------------------

  /** The line after sliding it toward its front. */
  function SlideLeft(row: seq<int>): seq<int>
  {
    Pad(Merge(NonZero(row)), |row|)
  }

  /** The points scored by `SlideLeft(row)`. */
  function SlideGain(row: seq<int>): int
  {
    Gain(NonZero(row))
  }

  /**
    The slid line has the length of the input, its tiles all come before its
    empty cells, and read in order they are the merged tiles of the input.
  */
  lemma SlideLeftShape(row: seq<int>)
    ensures |SlideLeft(row)| == |row|
    ensures NonZero(SlideLeft(row)) == Merge(NonZero(row))
    ensures forall i, j :: 0 <= i < j < |row| && SlideLeft(row)[i] == 0 ==> SlideLeft(row)[j] == 0
  {
    var m := Merge(NonZero(row));
    MergeNoZero(NonZero(row));
    NonZeroPad(m, |row|);
    forall i, j | 0 <= i < j < |row| && SlideLeft(row)[i] == 0
      ensures SlideLeft(row)[j] == 0
    {
      assert i >= |m|;
    }
  }

  /** Sliding moves and merges tiles but never changes the line's total. */
  lemma SlideLeftSum(row: seq<int>)
    ensures Sum(SlideLeft(row)) == Sum(row)
  {
    PadSum(Merge(NonZero(row)), |row|);
    MergeSum(NonZero(row));
    NonZeroSum(row);
  }

  /** A line of tiles slides to a line of tiles, scoring no negative points. */
  lemma SlideLeftTiles(row: seq<int>)
    requires AllTiles(row)
    ensures AllTiles(SlideLeft(row))
    ensures SlideGain(row) >= 0
  {
    NonZeroTiles(row);
    MergeTiles(NonZero(row));
    GainNonNegative(NonZero(row));
  }

  /** A line of tiles that scores points is changed by the slide. */
  lemma SlideGainChanges(row: seq<int>)
    requires AllTiles(row)
    ensures SlideGain(row) != 0 ==> SlideLeft(row) != row
  {
    var t := NonZero(row);
    if SlideGain(row) != 0 {
      NonZeroTiles(row);
      GainZeroIffUnmerged(t);
      MergeChangedShorter(t);
      SlideLeftShape(row);
    }
  }

  /**
    Sliding a slid line again changes nothing once the second slide scores
    nothing (no merge is left to make).
  */
  lemma SlideLeftIdempotent(row: seq<int>)
    requires AllTiles(row)
    requires SlideGain(SlideLeft(row)) == 0
    ensures SlideLeft(SlideLeft(row)) == SlideLeft(row)
  {
    var m := Merge(NonZero(row));
    NonZeroTiles(row);
    MergeTiles(NonZero(row));
    MergeNoZero(NonZero(row));
    NonZeroPad(m, |row|);
    GainZeroIffUnmerged(m);
  }

  /** A full line with no equal neighbours is left as it is. */
  lemma SlideLeftFixed(row: seq<int>)
    requires NoZero(row) && NoEqualNeighbours(row)
    ensures SlideLeft(row) == row
    ensures SlideGain(row) == 0
  {
    NonZeroOfNoZero(row);
    MergeNoNeighbours(row);
    assert Zeros(0) == [];
  }

  /**
    After a slide that changed the line, or of a line that had an empty
    cell, the line has an empty cell.
  */
  lemma SlideLeavesEmptyCell(row: seq<int>)
    ensures !NoZero(row) || SlideLeft(row) != row ==> !NoZero(SlideLeft(row))
  {
    var t := NonZero(row);
    if !NoZero(row) {
      NonZeroShorter(row);
      assert SlideLeft(row)[|row| - 1] == 0;
    } else {
      NonZeroOfNoZero(row);
      if Merge(t) == t {
        assert Zeros(0) == [];
        assert SlideLeft(row) == row;
      } else {
        MergeChangedShorter(t);
        assert SlideLeft(row)[|row| - 1] == 0;
      }
    }
  }

  // ---------------------------------------------------------------------
  // The merge pass as the engine's loop runs it
  // ---------------------------------------------------------------------

  /**
    One front-to-back pass over a line: where a tile equals its right
    neighbour it is doubled and the neighbour's cell emptied.
  */
  function MergePass(s: seq<int>): (r: seq<int>)
    ensures |r| == |s|
    decreases |s|
  {
    if |s| < 2 then s
    else if s[0] == s[1] && s[0] != 0 then [2 * s[0]] + MergePass([0] + s[2..])
    else [s[0]] + MergePass(s[1..])
  }

  /** The points scored by `MergePass(s)`. */
  function PassGain(s: seq<int>): int
    decreases |s|
  {
    if |s| < 2 then 0
    else if s[0] == s[1] && s[0] != 0 then 2 * s[0] + PassGain([0] + s[2..])
    else PassGain(s[1..])
  }

  lemma {:induction false} PassZeros(k: nat)
    ensures NonZero(MergePass(Zeros(k))) == []
    ensures PassGain(Zeros(k)) == 0
  {
    if k >= 2 {
      assert Zeros(k)[1..] == Zeros(k - 1);
      PassZeros(k - 1);
    } else if k == 1 {
      assert Zeros(1) == [0];
    }
  }

  /**
    One step of the pass at index `i` where the tile merges with its right
    neighbour: the pass from `i` on is the doubled tile followed by the pass
    from `i + 1` on over the updated line, and it scores the doubled value.
  */
  lemma PassMergeStep(s: seq<int>, i: nat)
    requires i < |s| - 1 && s[i] == s[i + 1] && s[i] != 0
    ensures s[..i] + MergePass(s[i..]) == (s[..i] + [2 * s[i]]) + MergePass([0] + s[i + 2..])
    ensures PassGain(s[i..]) == 2 * s[i] + PassGain([0] + s[i + 2..])
  {
    var u := s[i..];
    assert u[0] == s[i] && u[1] == s[i + 1];
    assert u[2..] == s[i + 2..];
    assert MergePass(u) == [2 * s[i]] + MergePass([0] + u[2..]);
  }

  /** One step of the pass at index `i` where no merge happens: the cell is kept. */
  lemma PassKeepStep(s: seq<int>, i: nat)
    requires i < |s| - 1 && !(s[i] == s[i + 1] && s[i] != 0)
    ensures s[..i] + MergePass(s[i..]) == (s[..i] + [s[i]]) + MergePass(s[i + 1..])
    ensures PassGain(s[i..]) == PassGain(s[i + 1..])
  {
    var u := s[i..];
    assert u[0] == s[i] && u[1] == s[i + 1];
    assert u[1..] == s[i + 1..];
    assert MergePass(u) == [s[i]] + MergePass(u[1..]);
  }

  /** Once at most one cell is left, the pass is over. */
  lemma PassDone(s: seq<int>, i: nat)
    requires i <= |s| && |s| - i <= 1
    ensures s[..i] + MergePass(s[i..]) == s
    ensures PassGain(s[i..]) == 0
  {
    assert s[..i] + s[i..] == s;
  }

  /**
    The merge pass as the engine's loop runs it over the indices: at index
    `i`, a tile equal to its right neighbour is doubled and the neighbour
    emptied, then the pass goes on at `i + 1`; it stops at the last cell.
  */
  function PassFrom(s: seq<int>, i: nat): (r: seq<int>)
    ensures |r| == |s|
    decreases |s| - i
  {
    if i + 1 >= |s| then s
    else if s[i] == s[i + 1] && s[i] != 0 then PassFrom(s[i := s[i] * 2][i + 1 := 0], i + 1)
    else PassFrom(s, i + 1)
  }

  /** The points the loop scores from index `i` on. */
  function GainFrom(s: seq<int>, i: nat): int
    decreases |s| - i
  {
    if i + 1 >= |s| then 0
    else if s[i] == s[i + 1] && s[i] != 0 then s[i] * 2 + GainFrom(s[i := s[i] * 2][i + 1 := 0], i + 1)
    else GainFrom(s, i + 1)
  }

  /**
    The loop from index `i` on keeps the cells before `i` and runs
    `MergePass` on the rest, scoring `PassGain` of the rest.
  */
  lemma {:induction false} PassFromSplit(s: seq<int>, i: nat)
    requires i <= |s|
    ensures PassFrom(s, i) == s[..i] + MergePass(s[i..])
    ensures GainFrom(s, i) == PassGain(s[i..])
    decreases |s| - i
  {
    if i + 1 >= |s| {
      PassDone(s, i);
    } else if s[i] == s[i + 1] && s[i] != 0 {
      PassMergeStep(s, i);
      var t := s[i := s[i] * 2][i + 1 := 0];
      assert t[..i + 1] == s[..i] + [2 * s[i]];
      assert t[i + 1..] == [0] + s[i + 2..];
      PassFromSplit(t, i + 1);
    } else {
      PassKeepStep(s, i);
      assert s[..i + 1] == s[..i] + [s[i]];
      PassFromSplit(s, i + 1);
    }
  }

  /** Run from the first index, the loop is the pass `MergePass`. */
  lemma PassFromStart(c: seq<int>)
    ensures PassFrom(c, 0) == MergePass(c)
    ensures GainFrom(c, 0) == PassGain(c)
  {
    PassFromSplit(c, 0);
    assert c[..0] + MergePass(c[0..]) == MergePass(c) by {
      assert c[..0] == [] && c[0..] == c;
    }
  }

  /**
    Compacting and running the pass leaves exactly the merged tiles of the
    line, and scores the slide's points.
  */
  lemma SlideViaPass(row: seq<int>, p: seq<int>)
    requires p == MergePass(NonZero(row) + Zeros(|row| - |NonZero(row)|))
    ensures NonZero(p) == Merge(NonZero(row))
    ensures PassGain(NonZero(row) + Zeros(|row| - |NonZero(row)|)) == SlideGain(row)
  {
    PassOnCompacted(NonZero(row), |row| - |NonZero(row)|);
  }

  /** An empty cell at the front takes no part in the pass. */
  lemma PassLeadingZero(u: seq<int>)
    ensures NonZero(MergePass([0] + u)) == NonZero(MergePass(u))
    ensures PassGain([0] + u) == PassGain(u)
  {
    if u != [] {
      assert ([0] + u)[1..] == u;
    }
  }

  /**
    On a compacted line (tiles `t`, then `k` empty cells) the pass merges
    exactly as `Merge` does and scores `Gain(t)`.
  */
  lemma {:induction false} PassOnCompacted(t: seq<int>, k: nat)
    requires NoZero(t)
    ensures NonZero(MergePass(t + Zeros(k))) == Merge(t)
    ensures PassGain(t + Zeros(k)) == Gain(t)
  {
    var s := t + Zeros(k);
    if |t| == 0 {
      assert s == Zeros(k);
      PassZeros(k);
    } else if |t| == 1 {
      if k > 0 {
        assert s[1..] == Zeros(k);
        PassZeros(k);
      }
    } else {
      assert s[0] == t[0] && s[1] == t[1];
      if t[0] == t[1] {
        assert s[2..] == t[2..] + Zeros(k);
        PassLeadingZero(s[2..]);
        PassOnCompacted(t[2..], k);
      } else {
        assert s[1..] == t[1..] + Zeros(k);
        PassOnCompacted(t[1..], k);
      }
    }
  }

  // ---------------------------------------------------------------------
  // Reversal
  // ---------------------------------------------------------------------

  /** The line read back to front. */
  function Reverse(s: seq<int>): seq<int>
  {
    seq(|s|, i requires 0 <= i < |s| => s[|s| - 1 - i])
  }

  lemma ReverseInvolution(s: seq<int>)
    ensures Reverse(Reverse(s)) == s
  {
    assert forall i :: 0 <= i < |s| ==> Reverse(Reverse(s))[i] == s[i];
  }

  lemma {:induction false} ReverseSum(s: seq<int>)
    ensures Sum(Reverse(s)) == Sum(s)
  {
    if s != [] {
      assert Reverse(s) == Reverse(s[1..]) + [s[0]];
      SumConcat(Reverse(s[1..]), [s[0]]);
      ReverseSum(s[1..]);
    }
  }

  // ---------------------------------------------------------------------
  // Worked lines
  // ---------------------------------------------------------------------

  /** Merges never cascade: four equal tiles become two doubled tiles. */
  lemma SlideFourEqual()
    ensures SlideLeft([2, 2, 2, 2]) == [4, 4, 0, 0]
    ensures SlideGain([2, 2, 2, 2]) == 8
  {
    assert NonZero([2, 2, 2, 2]) == [2, 2, 2, 2] by {
      NonZeroOfNoZero([2, 2, 2, 2]);
    }
    assert [2, 2, 2, 2][2..] == [2, 2];
    assert Merge([2, 2]) == [4] + Merge([]);
    assert Zeros(2) == [0, 0];
  }

  /**
    A freshly doubled tile does not merge with an equal neighbour in the
    same slide, so a slid line may still hold equal neighbouring tiles.
  */
  lemma SlideNoCascade()
    ensures SlideLeft([2, 2, 4, 0]) == [4, 4, 0, 0]
    ensures SlideGain([2, 2, 4, 0]) == 4
    ensures !NoEqualNeighbours(SlideLeft([2, 2, 4, 0]))
  {
    assert [2, 2, 4, 0][1..] == [2, 4, 0];
    assert [2, 4, 0][1..] == [4, 0];
    assert [4, 0][1..] == [0];
    assert NonZero([2, 2, 4, 0]) == [2, 2, 4];
    assert [2, 2, 4][2..] == [4];
    assert Zeros(2) == [0, 0];
    assert SlideLeft([2, 2, 4, 0]) == [4, 4, 0, 0];
    assert SlideLeft([2, 2, 4, 0])[0] == SlideLeft([2, 2, 4, 0])[1];
  }

  /** A single tile already at the front stays put and scores nothing. */
  lemma SlideSingleAtWall()
    ensures SlideLeft([2, 0, 0, 0]) == [2, 0, 0, 0]
    ensures SlideGain([2, 0, 0, 0]) == 0
  {
    assert NonZero([2, 0, 0, 0]) == [2] by {
      assert [2, 0, 0, 0][1..] == [0, 0, 0];
      NonZeroZeros(3);
      assert Zeros(3) == [0, 0, 0];
    }
    assert Zeros(3) == [0, 0, 0];
  }
}
