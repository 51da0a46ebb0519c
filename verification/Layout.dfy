/** The order in which FileHeader::Allocate takes sectors (filesys/filehdr.cc), for any number of direct entries D and
    any number of entries L > 0 in an index sector. Position k stands for the k-th Find. */
module Layouts {
  import opened BitMaps

  /** Second-level index sectors of a file of n sectors. */
  function Tables(D: nat, L: nat, n: int): nat
    requires L > 0
  {
    if n <= D + L then 0 else (n - D - L + L - 1) / L
  }

  /** Which of the successive Finds supplies block i. */
  function Rank(D: nat, L: nat, i: nat): nat
    requires L > 0
  {
    if i < D then i
    else if i < D + L then i + 1
    else i + 3 + (i - D - L) / L
  }

  /** How many Finds a file of n sectors makes. */
  function Total(D: nat, L: nat, n: nat): nat
    requires L > 0
  {
    if n < D then n
    else if n < D + L then n + 1
    else n + 2 + Tables(D, L, n)
  }

  /** The Finds that supply the first index sector, the top table and second-level table j. */
  function SingleRank(D: nat): nat { D }

  function TopRank(D: nat, L: nat): nat { D + L + 1 }

  function TableRank(D: nat, L: nat, j: nat): nat { D + L + 2 + (L + 1) * j }

  /** The Finds for index sectors that Deallocate visits: it looks for an index only in larger files than Allocate. */
  function IndexRanks(D: nat, L: nat, n: int): seq<nat>
    requires L > 0
  {
    if n <= D then []
    else if n <= D + L then [SingleRank(D)]
    else [SingleRank(D)] + seq(Tables(D, L, n), j requires 0 <= j => TableRank(D, L, j)) + [TopRank(D, L)]
  }

  /** The Find, if any, whose sector Deallocate forgets: the index sector of a file that ends exactly where the direct
      or the single-indirect blocks end. */
  function Leaked(D: nat, L: nat, n: nat): seq<nat>
    requires L > 0
  {
    if n == D then [SingleRank(D)] else if n == D + L then [TopRank(D, L)] else []
  }

  // ---------------------------------------------------------------------------
  // Division

  lemma DivMod(x: nat, L: nat)
    requires L > 0
    ensures x == (x / L) * L + x % L && 0 <= x % L < L && x / L >= 0
  {
  }

  lemma DivIs(q: nat, r: nat, L: nat)
    requires r < L
    ensures (q * L + r) / L == q && (q * L + r) % L == r
  {
    var x := q * L + r;
    DivMod(x, L);
    if x / L < q {
      Product(x / L + 1, q, L);
    } else if x / L > q {
      Product(q + 1, x / L, L);
    }
  }

  lemma Product(a: nat, b: nat, L: nat)
    requires a <= b
    ensures a * L <= b * L
  {
    assert b * L == a * L + (b - a) * L;
    assert (b - a) * L >= 0;
  }

  lemma NextProduct(q: nat, L: nat)
    ensures (q + 1) * L == q * L + L && q * (L + 1) == q * L + q
  {
  }

  lemma DivMonotone(x: nat, y: nat, L: nat)
    requires L > 0 && x <= y
    ensures x / L <= y / L
  {
    DivMod(x, L);
    DivMod(y, L);
    if y / L < x / L { Product(y / L + 1, x / L, L); }
  }

  lemma TablesBound(D: nat, L: nat, n: nat)
    requires L > 0 && n > D + L
    ensures var N, T := n - D - L, Tables(D, L, n); T >= 1 && (T - 1) * L < N <= T * L
  {
    var N, T := n - D - L, Tables(D, L, n);
    DivMod(N + L - 1, L);
    assert (T - 1) * L == T * L - L;
  }

  // ---------------------------------------------------------------------------

  /** A block of the double-indirect part: its table and its place there. */
  lemma DoubleRank(D: nat, L: nat, i: nat)
    requires L > 0 && i >= D + L
    ensures var q, r := (i - D - L) / L, (i - D - L) % L;
      Rank(D, L, i) == TableRank(D, L, q) + 1 + r && r < L && i == D + L + q * L + r
  {
    DivMod(i - D - L, L);
    var q := (i - D - L) / L;
    assert (L + 1) * q == q * L + q;
  }

  lemma RankMonotone(D: nat, L: nat, i: nat, j: nat)
    requires L > 0 && i < j
    ensures Rank(D, L, i) < Rank(D, L, j)
  {
    if i >= D + L { DivMonotone(i - D - L, j - D - L, L); }
    if j >= D + L { DivMod(j - D - L, L); }
  }

  lemma RankBound(D: nat, L: nat, i: nat, n: nat)
    requires L > 0 && i < n
    ensures Rank(D, L, i) < Total(D, L, n)
  {
    if n > D + L {
      TablesBound(D, L, n);
      if i >= D + L {
        DivMod(i - D - L, L);
        if (i - D - L) / L >= Tables(D, L, n) { Product(Tables(D, L, n), (i - D - L) / L, L); }
      }
    }
  }

  lemma TableRankBound(D: nat, L: nat, n: nat, j: nat)
    requires L > 0 && n > D + L && j < Tables(D, L, n)
    ensures TableRank(D, L, j) < Total(D, L, n)
  {
    TablesBound(D, L, n);
    Product(j, Tables(D, L, n) - 1, L);
    assert (L + 1) * j == j * L + j;
  }

  /** No data block is taken by a Find that supplies an index sector. */
  lemma RankNotIndex(D: nat, L: nat, i: nat, j: nat)
    requires L > 0
    ensures Rank(D, L, i) != SingleRank(D) && Rank(D, L, i) != TopRank(D, L) && Rank(D, L, i) != TableRank(D, L, j)
  {
    TableRankIs(D, L, j);
    if i >= D + L {
      var q := (i - D - L) / L;
      DoubleRank(D, L, i);
      TableRankIs(D, L, q);
      NextProduct(q, L + 1);
      hide Rank, TableRank;
      if j <= q { Product(j, q, L + 1); } else { Product(q + 1, j, L + 1); }
    }
  }

  lemma TableRankIs(D: nat, L: nat, j: nat)
    ensures TableRank(D, L, j) == D + L + 2 + j * (L + 1) && j * (L + 1) >= 0
  {
  }

  lemma IndexRanksSpec(D: nat, L: nat, n: nat, k: nat, l: nat)
    requires L > 0 && k < |IndexRanks(D, L, n)| && l < |IndexRanks(D, L, n)|
    ensures IndexRanks(D, L, n)[k] < Total(D, L, n)
    ensures k != l ==> IndexRanks(D, L, n)[k] != IndexRanks(D, L, n)[l]
    ensures forall i: nat :: Rank(D, L, i) != IndexRanks(D, L, n)[k]
  {
    var ranks := IndexRanks(D, L, n);
    if 0 < k < |ranks| - 1 { TableRankBound(D, L, n, k - 1); }
    if 0 < l < |ranks| - 1 { TableRankBound(D, L, n, l - 1); }
    if n > D + L {
      TablesBound(D, L, n);
      if 0 < k < |ranks| - 1 && 0 < l < |ranks| - 1 && k != l {
        TableRanksDiffer(D, L, k - 1, l - 1);
      }
    }
    forall i: nat ensures Rank(D, L, i) != ranks[k] {
      RankNotIndex(D, L, i, if k > 0 then k - 1 else 0);
    }
  }

  lemma TableRanksDiffer(D: nat, L: nat, j: nat, k: nat)
    requires j != k
    ensures TableRank(D, L, j) != TableRank(D, L, k)
  {
    if j < k { Product(j + 1, k, L + 1); } else { Product(k + 1, j, L + 1); }
  }

  /** Each of Allocate's Finds supplies a block, an index sector that Deallocate visits, or the leaked one. */
  lemma EachFindIsUsed(D: nat, L: nat, n: nat, k: nat)
    requires L > 0 && k < Total(D, L, n)
    ensures (exists i :: 0 <= i < n && Rank(D, L, i) == k) || k in IndexRanks(D, L, n) || k in Leaked(D, L, n)
  {
    if k < D {
      assert Rank(D, L, k) == k;
    } else if D < k <= D + L {
      assert Rank(D, L, k - 1) == k;
    } else if k == SingleRank(D) || k == TopRank(D, L) {
      if n > D + L {
        var ranks := IndexRanks(D, L, n);
        assert ranks[0] == SingleRank(D) && ranks[|ranks| - 1] == TopRank(D, L);
      }
    } else {
      LateFindIsUsed(D, L, n, k);
    }
  }

  lemma LateFindIsUsed(D: nat, L: nat, n: nat, k: nat)
    requires L > 0 && D + L + 2 <= k < Total(D, L, n)
    ensures (exists i :: 0 <= i < n && Rank(D, L, i) == k) || k in IndexRanks(D, L, n)
  {
    var x := k - (D + L + 2);
    var q, r := x / (L + 1), x % (L + 1);
    DivMod(x, L + 1);
    TableRankIs(D, L, q);
    assert n > D + L;
    TablesBound(D, L, n);
    LateTable(n - D - L, Tables(D, L, n), L, q, r);
    if r == 0 {
      assert IndexRanks(D, L, n)[1 + q] == TableRank(D, L, q) == k;
    } else {
      var i := D + L + q * L + (r - 1);
      DivIs(q, r - 1, L);
      NextProduct(q, L);
      assert Rank(D, L, i) == i + 3 + q;
    }
  }

  /** The table of a late Find, and its place there, are within the file. */
  lemma LateTable(N: nat, T: nat, L: nat, q: nat, r: nat)
    requires L > 0 && T >= 1 && (T - 1) * L < N <= T * L && q * (L + 1) + r < N + T && r <= L
    ensures q < T && (r > 0 ==> q * L + (r - 1) < N)
  {
    NextProduct(q, L);
    NextProduct(T - 1, L);
    if T <= q {
      Product(T, q, L);
    } else if T > q + 1 {
      Product(q + 1, T - 1, L);
    }
  }

  // ---------------------------------------------------------------------------
  // A file laid out along a list of free sectors

  /** Block i lies in the sector of the Find of its rank, and so does every index sector. */
  ghost predicate Along(D: nat, L: nat, free: seq<int>, blocks: seq<int>, index: seq<int>)
    requires L > 0
  {
    && Total(D, L, |blocks|) <= |free| && |index| == |IndexRanks(D, L, |blocks|)|
    && (forall i :: 0 <= i < |blocks| ==> Rank(D, L, i) < |free| && blocks[i] == free[Rank(D, L, i)])
    && (forall k :: 0 <= k < |index| ==>
          IndexRanks(D, L, |blocks|)[k] < |free| && index[k] == free[IndexRanks(D, L, |blocks|)[k]])
  }

  /** The blocks rise strictly, and no sector is used twice. */
  lemma AlongIsSound(D: nat, L: nat, free: seq<int>, blocks: seq<int>, index: seq<int>)
    requires L > 0 && Ascending(free) && Along(D, L, free, blocks, index)
    ensures Ascending(blocks)
    ensures forall k, l :: 0 <= k < l < |index| ==> index[k] != index[l]
    ensures forall i, k :: 0 <= i < |blocks| && 0 <= k < |index| ==> blocks[i] != index[k]
  {
    var n := |blocks|;
    hide Rank, IndexRanks, Total;
    forall i, j | 0 <= i < j < n ensures blocks[i] < blocks[j] {
      RankMonotone(D, L, i, j);
    }
    forall k, l | 0 <= k < l < |index| ensures index[k] != index[l] {
      IndexRanksSpec(D, L, n, k, l);
      Differ(free, IndexRanks(D, L, n)[k], IndexRanks(D, L, n)[l]);
    }
    forall i, k | 0 <= i < n && 0 <= k < |index| ensures blocks[i] != index[k] {
      IndexRanksSpec(D, L, n, k, k);
      Differ(free, Rank(D, L, i), IndexRanks(D, L, n)[k]);
    }
  }

  lemma Differ(xs: seq<int>, i: nat, j: nat)
    requires Ascending(xs) && i < |xs| && j < |xs|
    ensures xs[i] == xs[j] <==> i == j
  {
  }

  /** Of the free sectors, Deallocate gives back exactly those that Allocate took, but for the leaked one. */
  lemma AlongIsReturned(D: nat, L: nat, free: seq<int>, blocks: seq<int>, index: seq<int>, k: nat)
    requires L > 0 && Ascending(free) && Along(D, L, free, blocks, index) && k < |free|
    ensures free[k] in blocks || free[k] in index <==> k < Total(D, L, |blocks|) && k !in Leaked(D, L, |blocks|)
  {
    var n := |blocks|;
    if k < Total(D, L, n) && k !in Leaked(D, L, n) {
      EachFindIsUsed(D, L, n, k);
      if i :| 0 <= i < n && Rank(D, L, i) == k {
        assert blocks[i] == free[k];
      } else {
        var j :| 0 <= j < |IndexRanks(D, L, n)| && IndexRanks(D, L, n)[j] == k;
        assert index[j] == free[k];
      }
    }
    if free[k] in blocks {
      var i :| 0 <= i < n && blocks[i] == free[k];
      Differ(free, Rank(D, L, i), k);
      RankBound(D, L, i, n);
      RankNotIndex(D, L, i, 0);
    } else if free[k] in index {
      var j :| 0 <= j < |index| && index[j] == free[k];
      Differ(free, IndexRanks(D, L, n)[j], k);
      IndexRanksSpec(D, L, n, j, j);
      IndexNotLeaked(D, L, n, j);
    }
  }

  lemma IndexNotLeaked(D: nat, L: nat, n: nat, j: nat)
    requires L > 0 && j < |IndexRanks(D, L, n)|
    ensures IndexRanks(D, L, n)[j] !in Leaked(D, L, n)
  {
  }
}
