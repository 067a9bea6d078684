/** The binary tree of ROM addresses that the Search ROM walk explores: which leaf a
    walk reaches, and why the next walk reaches the lexicographic successor. */
module SearchTree {

  type Rom = r: seq<bool> | |r| == 64 witness seq(64, _ => false)

  /** Lexicographic order of the address bits in transmission order. */
  ghost predicate Less(a: seq<bool>, b: seq<bool>) {
    exists i: nat :: LessAt(a, b, i)
  }

  /** The two strings first differ at i, where a has 0 and b has 1. */
  ghost predicate LessAt(a: seq<bool>, b: seq<bool>, i: nat) {
    i < |a| && i < |b| && a[..i] == b[..i] && !a[i] && b[i]
  }

  /** Some device of the bus still takes part after the directions p were written. */
  ghost predicate Reaches(d: set<Rom>, p: seq<bool>) {
    exists r :: r in d && p <= r
  }

  /** Both directions still have devices: the id and complement bits both read 0. */
  ghost predicate Conflict(d: set<Rom>, p: seq<bool>) {
    Reaches(d, p + [false]) && Reaches(d, p + [true])
  }

  /** 1-based position of the last conflict on path p where 0 was taken, or 0. */
  ghost function LastZero(d: set<Rom>, p: seq<bool>): (z: nat)
    ensures z <= |p|
  {
    if p == [] then 0
    else
      var n := |p| - 1;
      if !p[n] && Conflict(d, p[..n]) then n + 1 else LastZero(d, p[..n])
  }

  /** The direction of the walk after p, when the previous walk ended at prev and its
      last discrepancy is ld. */
  ghost function Direction(d: set<Rom>, ld: nat, prev: Rom, p: seq<bool>): bool
    requires |p| < 64
  {
    if !Reaches(d, p + [false]) then true
    else if !Reaches(d, p + [true]) then false
    else if |p| + 1 < ld then prev[|p|]
    else |p| + 1 == ld
  }

  ghost function Path(d: set<Rom>, ld: nat, prev: Rom, n: nat): (p: seq<bool>)
    requires n <= 64
    ensures |p| == n
  {
    if n == 0 then [] else
      var p := Path(d, ld, prev, n - 1);
      p + [Direction(d, ld, prev, p)]
  }

  lemma NextReaches(d: set<Rom>, p: seq<bool>)
    requires |p| < 64
    ensures Reaches(d, p) <==> Reaches(d, p + [false]) || Reaches(d, p + [true])
  {
    if Reaches(d, p) {
      var r :| r in d && p <= r;
      BranchTaken(d, p, r);
      if r[|p|] {
        assert Reaches(d, p + [true]);
      }
    }
    if Reaches(d, p + [false]) {
      var r :| r in d && p + [false] <= r;
      assert p <= r;
    }
    if Reaches(d, p + [true]) {
      var r :| r in d && p + [true] <= r;
      assert p <= r;
    }
  }

  lemma TakesBranch(p: seq<bool>, r: Rom)
    requires p <= r && |p| < 64
    ensures p + [r[|p|]] <= r
  {
    assert r[..|p| + 1] == r[..|p|] + [r[|p|]];
  }

  lemma BranchTaken(d: set<Rom>, p: seq<bool>, r: Rom)
    requires r in d && p <= r && |p| < 64
    ensures Reaches(d, p + [r[|p|]])
  {
    TakesBranch(p, r);
  }

  lemma {:induction false} PathReaches(d: set<Rom>, ld: nat, prev: Rom, n: nat)
    requires n <= 64 && d != {}
    ensures Reaches(d, Path(d, ld, prev, n))
  {
    if n == 0 {
      var r :| r in d;
      assert [] <= r;
    } else {
      PathReaches(d, ld, prev, n - 1);
      NextReaches(d, Path(d, ld, prev, n - 1));
    }
  }

  lemma PathEndsAtDevice(d: set<Rom>, ld: nat, prev: Rom)
    requires d != {}
    ensures Path(d, ld, prev, 64) in d
  {
    PathReaches(d, ld, prev, 64);
    var r :| r in d && Path(d, ld, prev, 64) <= r;
    assert r == Path(d, ld, prev, 64);
  }

  lemma {:induction false} LastZeroIsConflict(d: set<Rom>, p: seq<bool>)
    requires LastZero(d, p) > 0
    ensures var z := LastZero(d, p) - 1; z < |p| && !p[z] && Conflict(d, p[..z])
  {
    var n := |p| - 1;
    if !(!p[n] && Conflict(d, p[..n])) {
      LastZeroIsConflict(d, p[..n]);
      assert p[..n][..LastZero(d, p) - 1] == p[..LastZero(d, p) - 1];
    }
  }

  lemma {:induction false} LastZeroIsLast(d: set<Rom>, p: seq<bool>, i: nat)
    requires i < |p| && !p[i] && Conflict(d, p[..i])
    ensures i + 1 <= LastZero(d, p)
  {
    var n := |p| - 1;
    if i < n {
      assert p[..n][..i] == p[..i];
      LastZeroIsLast(d, p[..n], i);
    }
  }

  /** A device above leaf branches off leaf at a conflict where leaf took 0. */
  lemma GreaterBranchesOff(d: set<Rom>, leaf: Rom, r: Rom, i: nat)
    requires leaf in d && r in d && LessAt(leaf, r, i)
    ensures i + 1 <= LastZero(d, leaf)
  {
    assert leaf[..i] + [false] <= leaf;
    assert leaf[..i] + [true] <= r;
    LastZeroIsLast(d, leaf, i);
  }

  lemma PathStep(d: set<Rom>, ld: nat, prev: Rom, n: nat)
    requires 1 <= n <= 64
    ensures Path(d, ld, prev, n) == Path(d, ld, prev, n - 1) + [Direction(d, ld, prev, Path(d, ld, prev, n - 1))]
  {
    hide Direction;
  }

  lemma TakeMore(s: seq<bool>, n: nat)
    requires 1 <= n <= |s|
    ensures s[..n] == s[..n - 1] + [s[n - 1]]
  {
  }

  lemma DirectionFollows(d: set<Rom>, ld: nat, prev: Rom, n: nat)
    requires prev in d && n + 1 < ld <= 64
    ensures Direction(d, ld, prev, prev[..n]) == prev[n]
  {
    hide Reaches;
    BranchTaken(d, prev[..n], prev);
  }

  /** Before the last discrepancy the walk repeats the previous one. */
  lemma {:induction false} PathFollowsPrevious(d: set<Rom>, prev: Rom, n: nat)
    requires prev in d && n < LastZero(d, prev)
    ensures Path(d, LastZero(d, prev), prev, n) == prev[..n]
  {
    if n > 0 {
      hide LastZero, Direction, Path;
      PathFollowsPrevious(d, prev, n - 1);
      DirectionFollows(d, LastZero(d, prev), prev, n - 1);
      PathStep(d, LastZero(d, prev), prev, n);
      TakeMore(prev, n);
    }
  }

  lemma PathTurnsAtDiscrepancy(d: set<Rom>, prev: Rom)
    requires prev in d && LastZero(d, prev) > 0
    ensures var ld := LastZero(d, prev);
            Path(d, ld, prev, ld) == prev[..ld - 1] + [true] && !prev[ld - 1]
  {
    var ld := LastZero(d, prev);
    PathFollowsPrevious(d, prev, ld - 1);
    LastZeroIsConflict(d, prev);
  }

  /** From the last discrepancy on, the walk takes the smallest device of its subtree. */
  lemma {:induction false} PathIsLeast(d: set<Rom>, ld: nat, prev: Rom, n: nat, r: Rom)
    requires ld <= n <= 64 && r in d && Path(d, ld, prev, ld) <= r
    ensures Path(d, ld, prev, n) <= r || Less(Path(d, ld, prev, n), r)
  {
    if n > ld {
      var p, q := Path(d, ld, prev, n - 1), Path(d, ld, prev, n);
      PathIsLeast(d, ld, prev, n - 1, r);
      if p <= r {
        TakesBranch(p, r);
        if q[n - 1] == r[n - 1] {
          assert q == p + [r[n - 1]];
        } else {
          assert LessAt(q, r, n - 1);
        }
      } else {
        var i: nat :| LessAt(p, r, i);
        assert LessAt(q, r, i) by {
          assert q[..i] == p[..i];
        }
      }
    }
  }

  lemma {:induction false} PathPrefix(d: set<Rom>, ld: nat, prev: Rom, m: nat, n: nat)
    requires m <= n <= 64
    ensures Path(d, ld, prev, n)[..m] == Path(d, ld, prev, m)
  {
    hide Direction;
    if m < n {
      PathPrefix(d, ld, prev, m, n - 1);
      var p := Path(d, ld, prev, n - 1);
      assert (p + [Direction(d, ld, prev, p)])[..m] == p[..m];
    } else {
      var p := Path(d, ld, prev, n);
      assert p[..n] == p;
    }
  }

  /** The first walk ends at the smallest device. */
  lemma FirstWalk(d: set<Rom>, prev: Rom)
    requires d != {}
    ensures var leaf := Path(d, 0, prev, 64);
            leaf in d && forall r | r in d :: r == leaf || Less(leaf, r)
  {
    PathEndsAtDevice(d, 0, prev);
    var leaf := Path(d, 0, prev, 64);
    forall r | r in d ensures r == leaf || Less(leaf, r) {
      PathIsLeast(d, 0, prev, 64, r);
    }
  }

  /** Every further walk ends at the lexicographic successor of the previous leaf. */
  lemma NextWalk(d: set<Rom>, prev: Rom)
    requires prev in d && LastZero(d, prev) > 0
    ensures var leaf := Path(d, LastZero(d, prev), prev, 64);
            && leaf in d && Less(prev, leaf)
            && forall r | r in d && Less(prev, r) :: r == leaf || Less(leaf, r)
  {
    hide Path, LastZero, Conflict;
    var ld := LastZero(d, prev);
    PathEndsAtDevice(d, ld, prev);
    PathTurnsAtDiscrepancy(d, prev);
    PathPrefix(d, ld, prev, ld, 64);
    var leaf := Path(d, ld, prev, 64);
    var turn := leaf[..ld];
    assert turn == prev[..ld - 1] + [true];
    assert leaf[..ld - 1] == turn[..ld - 1];
    assert leaf[ld - 1] == turn[ld - 1];
    assert LessAt(prev, leaf, ld - 1);
    forall r | r in d && Less(prev, r) ensures r == leaf || Less(leaf, r) {
      var i: nat :| LessAt(prev, r, i);
      GreaterBranchesOff(d, prev, r, i);
      if i + 1 < ld {
        var common := leaf[..ld - 1];
        assert leaf[..i] == common[..i] == prev[..i];
        assert leaf[i] == common[i];
        assert LessAt(leaf, r, i);
      } else {
        assert r[..ld] == r[..ld - 1] + [true];
        assert Path(d, ld, prev, ld) <= r;
        PathIsLeast(d, ld, prev, 64, r);
      }
    }
  }

  /** No zero was taken at a conflict: the leaf is the largest device. */
  lemma LastWalk(d: set<Rom>, leaf: Rom)
    requires leaf in d && LastZero(d, leaf) == 0
    ensures forall r | r in d :: !Less(leaf, r)
  {
    forall r | r in d ensures !Less(leaf, r) {
      if Less(leaf, r) {
        var i: nat :| LessAt(leaf, r, i);
        GreaterBranchesOff(d, leaf, r, i);
      }
    }
  }

  lemma LessTransitive(a: Rom, b: Rom, c: Rom)
    requires Less(a, b) && Less(b, c)
    ensures Less(a, c)
  {
    var i: nat :| LessAt(a, b, i);
    var j: nat :| LessAt(b, c, j);
    var k := if i < j then i else j;
    assert a[..k] == a[..i][..k] == b[..i][..k] == b[..k];
    assert b[..k] == b[..j][..k] == c[..j][..k] == c[..k];
    if i < j {
      assert c[i] == c[..j][i] == b[..j][i];
    } else if j < i {
      assert a[j] == a[..i][j] == b[..i][j];
    }
    assert LessAt(a, c, k);
  }

  lemma LessIrreflexive(a: Rom)
    ensures !Less(a, a)
  {
  }

  // ---- enumerations ----

  ghost predicate Ascending(v: seq<Rom>) {
    forall i, j | 0 <= i < j < |v| :: Less(v[i], v[j])
  }

  /** v lists the smallest |v| devices of d in order. */
  ghost predicate Enumerates(d: set<Rom>, v: seq<Rom>) {
    && Ascending(v)
    && (forall r | r in v :: r in d)
    && (forall r | r in d :: r in v || v == [] || Less(v[|v| - 1], r))
  }

  /** Appending the leaf of the next walk keeps the enumeration. */
  lemma EnumerationGrows(d: set<Rom>, v: seq<Rom>, prev: Rom)
    requires d != {} && Enumerates(d, v)
    requires v != [] ==> prev == v[|v| - 1] && LastZero(d, prev) > 0
    ensures var ld := if v == [] then 0 else LastZero(d, prev);
            Enumerates(d, v + [Path(d, ld, prev, 64)])
  {
    var ld := if v == [] then 0 else LastZero(d, prev);
    var leaf := Path(d, ld, prev, 64);
    var w := v + [leaf];
    if v == [] {
      FirstWalk(d, prev);
    } else {
      assert prev in v;
      NextWalk(d, prev);
      forall i | 0 <= i < |v| ensures Less(v[i], leaf) {
        if i < |v| - 1 {
          LessTransitive(v[i], prev, leaf);
        }
      }
    }
    assert leaf in w && forall r | r in v :: r in w;
  }

  /** An enumeration whose last leaf took no zero at a conflict is complete. */
  lemma EnumerationComplete(d: set<Rom>, v: seq<Rom>)
    requires Enumerates(d, v) && v != [] && LastZero(d, v[|v| - 1]) == 0
    ensures forall r :: r in d <==> r in v
  {
    assert v[|v| - 1] in v;
    LastWalk(d, v[|v| - 1]);
  }

  lemma {:induction false} EnumerationBounded(d: set<Rom>, v: seq<Rom>)
    requires Ascending(v) && forall r | r in v :: r in d
    ensures |v| <= |d|
  {
    if v != [] {
      var n := |v| - 1;
      var last := v[n];
      assert last in v && forall r | r in v[..n] :: r in v;
      forall r | r in v[..n] ensures r in d - {last} {
        var i :| 0 <= i < n && v[i] == r;
        LessIrreflexive(last);
        assert Less(v[i], v[n]);
      }
      EnumerationBounded(d - {last}, v[..n]);
    }
  }
}
