/** Table operations the pipeline borrows from pandas, stated on sequences:
    boolean-mask selection (`df[mask]`), concatenation of frames
    (`pd.concat`) and forward / backward filling of missing values
    (`fillna(method='ffill')`, `fillna(method='bfill')`). */
module Frames {
  import opened Wrappers

  /** The positions of `mask` that hold `true`, in increasing order. */
  function TrueIndices(mask: seq<bool>): (r: seq<nat>)
    ensures |r| <= |mask|
    ensures forall k :: 0 <= k < |r| ==> r[k] < |mask| && mask[r[k]]
    ensures forall a, b :: 0 <= a < b < |r| ==> r[a] < r[b]
    ensures forall i :: 0 <= i < |mask| && mask[i] ==> i in r
    decreases |mask|
  {
    if |mask| == 0 then []
    else
      var last := |mask| - 1;
      var front := TrueIndices(mask[..last]);
      assert forall k :: 0 <= k < |front| ==> front[k] < last && mask[front[k]];
      if mask[last] then front + [last] else front
  }

  /** Boolean indexing: the rows of `s` whose mask entry is true, in their
      original order. */
  function Where<T>(s: seq<T>, mask: seq<bool>): (r: seq<T>)
    requires |mask| == |s|
    ensures |r| == |TrueIndices(mask)| <= |s|
    decreases |s|
  {
    if |s| == 0 then []
    else
      var last := |s| - 1;
      Where(s[..last], mask[..last]) + (if mask[last] then [s[last]] else [])
  }

  /** Row k of the selection is row TrueIndices(mask)[k] of `s`. */
  lemma {:induction false} WhereAt<T>(s: seq<T>, mask: seq<bool>, k: nat)
    requires |mask| == |s| && k < |Where(s, mask)|
    ensures TrueIndices(mask)[k] < |s| && mask[TrueIndices(mask)[k]]
    ensures Where(s, mask)[k] == s[TrueIndices(mask)[k]]
    decreases |s|
  {
    var last := |s| - 1;
    var front := Where(s[..last], mask[..last]);
    var idx := TrueIndices(mask[..last]);
    assert TrueIndices(mask) == if mask[last] then idx + [last] else idx;
    if k < |front| {
      WhereAt(s[..last], mask[..last], k);
      assert Where(s, mask)[k] == front[k];
      assert s[..last][idx[k]] == s[idx[k]];
    } else {
      assert Where(s, mask)[k] == s[last];
    }
  }

  /** Every selected row of `s` appears in the selection, at position k. */
  lemma WhereKeeps<T>(s: seq<T>, mask: seq<bool>, i: nat) returns (k: nat)
    requires |mask| == |s| && i < |s| && mask[i]
    ensures k < |Where(s, mask)| && TrueIndices(mask)[k] == i && Where(s, mask)[k] == s[i]
  {
    var idx := TrueIndices(mask);
    k :| 0 <= k < |idx| && idx[k] == i;
    WhereAt(s, mask, k);
  }

  /** The selection holds only selected rows of `s`. */
  lemma WhereSelects<T>(s: seq<T>, mask: seq<bool>)
    requires |mask| == |s|
    ensures forall k :: 0 <= k < |Where(s, mask)| ==>
      TrueIndices(mask)[k] < |s| && mask[TrueIndices(mask)[k]] && Where(s, mask)[k] == s[TrueIndices(mask)[k]]
  {
    forall k | 0 <= k < |Where(s, mask)|
      ensures TrueIndices(mask)[k] < |s| && mask[TrueIndices(mask)[k]] && Where(s, mask)[k] == s[TrueIndices(mask)[k]]
    {
      WhereAt(s, mask, k);
    }
  }

  /** Increasing positions are kept in increasing order. */
  lemma WhereOrder<T>(s: seq<T>, mask: seq<bool>, a: nat, b: nat)
    requires |mask| == |s| && a < b < |Where(s, mask)|
    ensures TrueIndices(mask)[a] < TrueIndices(mask)[b]
  {
  }

  /** Selecting from a one-longer prefix adds at most its last row. */
  lemma WherePrefix<T>(s: seq<T>, mask: seq<bool>, i: nat)
    requires |mask| == |s| && i < |s|
    ensures Where(s[..i+1], mask[..i+1])
         == Where(s[..i], mask[..i]) + (if mask[i] then [s[i]] else [])
  {
    assert s[..i+1][..i] == s[..i];
    assert mask[..i+1][..i] == mask[..i];
  }

  /** Some element of `prefix` has key k. */
  predicate KeySeen<T, K(==)>(prefix: seq<T>, key: T -> K, k: K)
    decreases |prefix|
  {
    |prefix| > 0 && (key(prefix[|prefix| - 1]) == k || KeySeen(prefix[..|prefix| - 1], key, k))
  }

  lemma {:induction false} KeySeenAt<T, K>(prefix: seq<T>, key: T -> K, j: nat)
    requires j < |prefix|
    ensures KeySeen(prefix, key, key(prefix[j]))
    decreases |prefix|
  {
    if j < |prefix| - 1 && key(prefix[|prefix| - 1]) != key(prefix[j]) {
      KeySeenAt(prefix[..|prefix| - 1], key, j);
    }
  }

  lemma {:induction false} KeySeenFind<T, K>(prefix: seq<T>, key: T -> K, k: K) returns (j: nat)
    requires KeySeen(prefix, key, k)
    ensures j < |prefix| && key(prefix[j]) == k
    decreases |prefix|
  {
    if key(prefix[|prefix| - 1]) == k {
      j := |prefix| - 1;
    } else {
      j := KeySeenFind(prefix[..|prefix| - 1], key, k);
    }
  }

  /** Element i repeats the key of an earlier element: pandas'
      `duplicated(keep='first')`. */
  predicate Duplicated<T, K(==)>(s: seq<T>, key: T -> K, i: nat)
    requires i < |s|
  {
    KeySeen(s[..i], key, key(s[i]))
  }

  lemma DuplicatedBy<T, K>(s: seq<T>, key: T -> K, j: nat, i: nat)
    requires j < i < |s| && key(s[j]) == key(s[i])
    ensures Duplicated(s, key, i)
  {
    KeySeenAt(s[..i], key, j);
  }

  function FirstOccurrenceMask<T, K(==)>(s: seq<T>, key: T -> K): (mask: seq<bool>)
    ensures |mask| == |s|
  {
    seq(|s|, i requires 0 <= i < |s| => !Duplicated(s, key, i))
  }

  /** `drop_duplicates(keep='first')` on the key `key`; on a column with the
      identity key it is `unique()`. */
  function DropDuplicates<T, K(==)>(s: seq<T>, key: T -> K): (r: seq<T>)
  {
    Where(s, FirstOccurrenceMask(s, key))
  }

  /** The first element carrying the key of element i. */
  lemma {:induction false} FirstOfKey<T, K>(s: seq<T>, key: T -> K, i: nat) returns (f: nat)
    requires i < |s|
    ensures f <= i && key(s[f]) == key(s[i]) && !Duplicated(s, key, f)
    decreases i
  {
    if Duplicated(s, key, i) {
      var j := KeySeenFind(s[..i], key, key(s[i]));
      f := FirstOfKey(s, key, j);
    } else {
      f := i;
    }
  }

  /** Element k of the result is the first element of its key in s. */
  lemma DropDuplicatesAt<T, K>(s: seq<T>, key: T -> K, k: nat) returns (i: nat)
    requires k < |DropDuplicates(s, key)|
    ensures i < |s| && !Duplicated(s, key, i) && DropDuplicates(s, key)[k] == s[i]
    ensures i == TrueIndices(FirstOccurrenceMask(s, key))[k]
  {
    WhereAt(s, FirstOccurrenceMask(s, key), k);
    i := TrueIndices(FirstOccurrenceMask(s, key))[k];
  }

  /** The first element of each key is kept, at some position k. */
  lemma DropDuplicatesKeeps<T, K>(s: seq<T>, key: T -> K, i: nat) returns (k: nat)
    requires i < |s| && !Duplicated(s, key, i)
    ensures k < |DropDuplicates(s, key)| && DropDuplicates(s, key)[k] == s[i]
    ensures TrueIndices(FirstOccurrenceMask(s, key))[k] == i
  {
    k := WhereKeeps(s, FirstOccurrenceMask(s, key), i);
  }

  /** Every key of s is found in the result. */
  lemma DropDuplicatesHasKey<T, K>(s: seq<T>, key: T -> K, i: nat) returns (k: nat)
    requires i < |s|
    ensures k < |DropDuplicates(s, key)| && key(DropDuplicates(s, key)[k]) == key(s[i])
  {
    var f := FirstOfKey(s, key, i);
    k := DropDuplicatesKeeps(s, key, f);
  }

  /** No key appears twice in the result. */
  lemma DropDuplicatesUnique<T, K>(s: seq<T>, key: T -> K)
    ensures forall a, b :: 0 <= a < b < |DropDuplicates(s, key)| ==>
      key(DropDuplicates(s, key)[a]) != key(DropDuplicates(s, key)[b])
  {
    var r := DropDuplicates(s, key);
    var idx := TrueIndices(FirstOccurrenceMask(s, key));
    forall a, b | 0 <= a < b < |r| ensures key(r[a]) != key(r[b]) {
      var ia := DropDuplicatesAt(s, key, a);
      var ib := DropDuplicatesAt(s, key, b);
      if key(r[a]) == key(r[b]) {
        DuplicatedBy(s, key, ia, ib);
      }
    }
  }

  /** `pd.concat` of a list of frames, in list order. */
  function Concat<T>(frames: seq<seq<T>>): (r: seq<T>)
    ensures forall i, q :: 0 <= i < |frames| && 0 <= q < |frames[i]| ==> frames[i][q] in r
    decreases |frames|
  {
    if |frames| == 0 then []
    else
      var last := |frames| - 1;
      assert forall i :: 0 <= i < last ==> frames[..last][i] == frames[i];
      Concat(frames[..last]) + frames[last]
  }

  /** When every frame has n rows, row k of frame i sits at position i * n + k. */
  lemma {:induction false} ConcatAt<T>(frames: seq<seq<T>>, n: nat, i: nat, k: nat) returns (p: nat)
    requires forall j :: 0 <= j < |frames| ==> |frames[j]| == n
    requires i < |frames| && k < n
    ensures |Concat(frames)| == |frames| * n
    ensures p == i * n + k && p < |Concat(frames)| && Concat(frames)[p] == frames[i][k]
    decreases |frames|
  {
    var last := |frames| - 1;
    var front := frames[..last];
    ConcatLength(frames, n);
    ConcatLength(front, n);
    if i < last {
      p := ConcatAt(front, n, i, k);
      assert p < last * n by { MulStep(i, last, n, k); }
    } else {
      p := |Concat(front)| + k;
      assert i * n == |Concat(front)|;
    }
  }

  /** Length of a concatenation of frames of n rows each. */
  lemma {:induction false} ConcatLength<T>(frames: seq<seq<T>>, n: nat)
    requires forall j :: 0 <= j < |frames| ==> |frames[j]| == n
    ensures |Concat(frames)| == |frames| * n
    decreases |frames|
  {
    if |frames| > 0 {
      var last := |frames| - 1;
      ConcatLength(frames[..last], n);
      assert |frames| * n == last * n + n;
    }
  }

  /** Every position of such a concatenation is row k of some frame i. */
  lemma {:induction false} ConcatSplit<T>(frames: seq<seq<T>>, n: nat, p: nat) returns (i: nat, k: nat)
    requires forall j :: 0 <= j < |frames| ==> |frames[j]| == n
    requires p < |Concat(frames)|
    ensures i < |frames| && k < n && p == i * n + k
    decreases |frames|
  {
    var last := |frames| - 1;
    var front := frames[..last];
    ConcatLength(front, n);
    if p >= last * n {
      i, k := last, p - last * n;
    } else {
      i, k := ConcatSplit(front, n, p);
    }
  }

  lemma MulStep(i: nat, last: nat, n: nat, k: nat)
    requires i < last && k < n
    ensures i * n + k < last * n
  {
    assert (i + 1) * n <= last * n;
  }

  /** The last present value of xs, if any (what a forward fill carries). */
  function LastPresent<T>(xs: seq<Option<T>>): (r: Option<T>)
    ensures r.Some? <==> exists j :: 0 <= j < |xs| && xs[j].Some?
  {
    if |xs| == 0 then None
    else if xs[|xs| - 1].Some? then xs[|xs| - 1]
    else
      var front := xs[..|xs| - 1];
      assert forall j :: 0 <= j < |front| ==> front[j] == xs[j];
      LastPresent(front)
  }

  /** The first present value of xs, if any (what a backward fill carries). */
  function FirstPresent<T>(xs: seq<Option<T>>): (r: Option<T>)
    ensures r.Some? <==> exists j :: 0 <= j < |xs| && xs[j].Some?
  {
    if |xs| == 0 then None
    else if xs[0].Some? then xs[0]
    else
      assert forall j :: 1 <= j < |xs| ==> xs[1..][j - 1] == xs[j];
      FirstPresent(xs[1..])
  }

  lemma {:induction false} LastPresentIs<T>(xs: seq<Option<T>>, j: nat)
    requires j < |xs| && xs[j].Some?
    requires forall m :: j < m < |xs| ==> xs[m].None?
    ensures LastPresent(xs) == xs[j]
    decreases |xs|
  {
    if j < |xs| - 1 {
      var front := xs[..|xs| - 1];
      LastPresentIs(front, j);
    }
  }

  lemma {:induction false} FirstPresentIs<T>(xs: seq<Option<T>>, j: nat)
    requires j < |xs| && xs[j].Some?
    requires forall m :: 0 <= m < j ==> xs[m].None?
    ensures FirstPresent(xs) == xs[j]
    decreases |xs|
  {
    if j > 0 {
      FirstPresentIs(xs[1..], j - 1);
    }
  }

  /** Forward fill: walking forwards, a missing value takes the value the
      previous position ended with. */
  function FFill<T>(xs: seq<Option<T>>): (r: seq<Option<T>>)
    ensures |r| == |xs|
    ensures forall k :: 0 <= k < |xs| && xs[k].Some? ==> r[k] == xs[k]
    decreases |xs|
  {
    if |xs| == 0 then []
    else
      var front := FFill(xs[..|xs| - 1]);
      var x := xs[|xs| - 1];
      front + [if x.Some? || |front| == 0 then x else front[|front| - 1]]
  }

  /** Backward fill: walking backwards, a missing value takes the value the
      next position ended with. */
  function BFill<T>(xs: seq<Option<T>>): (r: seq<Option<T>>)
    ensures |r| == |xs|
    ensures forall k :: 0 <= k < |xs| && xs[k].Some? ==> r[k] == xs[k]
    decreases |xs|
  {
    if |xs| == 0 then []
    else
      var back := BFill(xs[1..]);
      [if xs[0].Some? || |back| == 0 then xs[0] else back[0]] + back
  }

  /** Forward fill carries the last present value at or before each position. */
  lemma {:induction false} FFillAt<T>(xs: seq<Option<T>>, k: nat)
    requires k < |xs|
    ensures FFill(xs)[k] == LastPresent(xs[..k + 1])
    decreases |xs|
  {
    var last := |xs| - 1;
    var front := xs[..last];
    if k < last {
      FFillAt(front, k);
      assert front[..k + 1] == xs[..k + 1];
    } else if k > 0 && xs[k].None? {
      FFillAt(front, k - 1);
      assert front[..k] == xs[..k + 1][..k];
    }
  }

  /** Backward fill carries the first present value at or after each position. */
  lemma {:induction false} BFillAt<T>(xs: seq<Option<T>>, k: nat)
    requires k < |xs|
    ensures BFill(xs)[k] == FirstPresent(xs[k..])
    decreases |xs|
  {
    var back := BFill(xs[1..]);
    if k > 0 {
      BFillAt(xs[1..], k - 1);
      assert BFill(xs)[k] == back[k - 1];
      assert xs[1..][k - 1..] == xs[k..];
    } else {
      assert xs[k..] == xs;
      if xs[0].None? && |xs| > 1 {
        BFillAt(xs[1..], 0);
        assert xs[1..][0..] == xs[1..];
      }
    }
  }

  /** ffill then bfill keeps a present value. */
  lemma FillKeeps<T>(xs: seq<Option<T>>, k: nat)
    requires k < |xs| && xs[k].Some?
    ensures BFill(FFill(xs))[k] == xs[k]
  {
  }

  /** ffill then bfill puts the nearest earlier present value into a gap. */
  lemma FillFromEarlier<T>(xs: seq<Option<T>>, k: nat, j: nat)
    requires j < k < |xs| && xs[j].Some?
    requires forall m :: j < m <= k ==> xs[m].None?
    ensures BFill(FFill(xs))[k] == xs[j]
  {
    assert FFill(xs)[k] == xs[j] by {
      FFillAt(xs, k);
      var upto := xs[..k + 1];
      assert forall m :: j < m < |upto| ==> upto[m].None?;
      LastPresentIs(upto, j);
    }
  }

  /** Forward filling leaves a leading run of missing values missing. */
  lemma FFillLeadingGap<T>(xs: seq<Option<T>>, n: nat)
    requires n <= |xs|
    requires forall m :: 0 <= m < n ==> xs[m].None?
    ensures forall m :: 0 <= m < n ==> FFill(xs)[m].None?
  {
    forall m | 0 <= m < n ensures FFill(xs)[m].None? {
      FFillAt(xs, m);
      var upto := xs[..m + 1];
      assert forall i :: 0 <= i < |upto| ==> upto[i].None?;
    }
  }

  /** Backward fill puts the next present value into a gap. */
  lemma BFillFromLater<T>(f: seq<Option<T>>, k: nat, j: nat)
    requires k < j < |f| && f[j].Some?
    requires forall m :: k <= m < j ==> f[m].None?
    ensures BFill(f)[k] == f[j]
  {
    var g := f[k..];
    assert g[j - k] == f[j];
    FirstPresentIs(g, j - k);
    BFillAt(f, k);
  }

  /** With nothing present at or before a gap, ffill then bfill puts the
      nearest later present value into it. */
  lemma FillFromLater<T>(xs: seq<Option<T>>, k: nat, j: nat)
    requires k < j < |xs| && xs[j].Some?
    requires forall m :: 0 <= m < j ==> xs[m].None?
    ensures BFill(FFill(xs))[k] == xs[j]
  {
    FFillLeadingGap(xs, j);
    assert FFill(xs)[j] == xs[j] by {
      FFillAt(xs, j);
      LastPresentIs(xs[..j + 1], j);
    }
    BFillFromLater(FFill(xs), k, j);
  }

  /** Forward filling an all-missing column leaves it all missing. */
  lemma FFillNothing<T>(xs: seq<Option<T>>)
    requires forall m :: 0 <= m < |xs| ==> xs[m].None?
    ensures forall m :: 0 <= m < |xs| ==> FFill(xs)[m].None?
  {
    FFillLeadingGap(xs, |xs|);
  }

  /** With nothing present at all, the gap stays missing. */
  lemma FillNothing<T>(xs: seq<Option<T>>, k: nat)
    requires k < |xs|
    requires forall m :: 0 <= m < |xs| ==> xs[m].None?
    ensures BFill(FFill(xs))[k].None?
  {
    var f := FFill(xs);
    FFillNothing(xs);
    BFillAt(f, k);
    assert forall m :: 0 <= m < |f[k..]| ==> f[k..][m].None?;
  }
}
