/**
  The directory tree under a filesystem bucket's root directory, as the
  filesystem provider sees it: paths as sequences of names, the entries
  at those paths, and the tree operations the provider's calls amount to
  (creating missing parent directories, removing a subtree, pruning
  emptied parents, reading a directory in name order).
 */
module FsTree {
  import opened Wrappers
  import opened Objstore

  /** A path below the root, one name per level; the root itself is []. */
  type Path = seq<string>

  /** A file (its bytes, modification time and checksum attribute, if set) or a directory. */
  datatype Entry = File(data: seq<Byte>, mtime: int, checksum: Option<string>) | Directory(mtime: int)

  /** Every path below the root that exists, with its entry.  The root is implicit. */
  type Tree = map<Path, Entry>

  function Parent(p: Path): Path
    requires p != []
  {
    p[..|p| - 1]
  }

  /** The root is not a key and the parent of every key is a directory (or the root). */
  predicate WF(t: Tree)
  {
    [] !in t && forall k {:trigger Parent(k)} :: k in t && |k| > 1 ==> Parent(k) in t && t[Parent(k)].Directory?
  }

  lemma {:induction false} WFPrefixes(t: Tree, k: Path, i: int)
    requires WF(t) && k in t && 0 < i < |k|
    ensures k[..i] in t && t[k[..i]].Directory?
    decreases |k| - i
  {
    assert Parent(k) == k[..|k| - 1];
    if i < |k| - 1 {
      WFPrefixes(t, Parent(k), i);
      assert Parent(k)[..i] == k[..i];
    }
  }

  /** The keys strictly below `d`. */
  function Under(t: Tree, d: Path): set<Path>
  {
    set k | k in t && d < k
  }

  /** The names directly inside `d`. */
  function Children(t: Tree, d: Path): set<string>
  {
    set k | k in t && d < k && |k| == |d| + 1 :: k[|d|]
  }

  lemma ChildrenMeaning(t: Tree, d: Path, c: string)
    ensures c in Children(t, d) <==> d + [c] in t
  {
    if c in Children(t, d) {
      var k :| k in t && d < k && |k| == |d| + 1 && k[|d|] == c;
      assert k == d + [c];
    }
    if d + [c] in t {
      assert (d + [c])[|d|] == c;
    }
  }

  /** A subdirectory's subtree is strictly smaller than its parent's. */
  lemma UnderShrinks(t: Tree, d: Path, c: string)
    requires d + [c] in t
    ensures |Under(t, d + [c])| < |Under(t, d)|
  {
    var p := d + [c];
    assert Under(t, p) + {p} <= Under(t, d) by {
      forall k | k in Under(t, p) ensures k in Under(t, d) {
        assert k[..|d|] == p[..|d|] == d;
      }
    }
    assert p !in Under(t, p);
    assert |Under(t, p) + {p}| == |Under(t, p)| + 1;
    SubsetSize(Under(t, p) + {p}, Under(t, d));
  }

  lemma {:induction false} SubsetSize<T>(a: set<T>, b: set<T>)
    requires a <= b
    ensures |a| <= |b|
    decreases |b|
  {
    if a != {} {
      var x :| x in a;
      SubsetSize(a - {x}, b - {x});
    }
  }

  /** Nothing is below `d`: an empty or missing directory. */
  predicate IsEmptyDir(t: Tree, d: Path)
  {
    forall k :: k in t ==> !(d < k)
  }

  /** In a well-formed tree a directory is empty exactly when it has no children. */
  lemma EmptyDirMeaning(t: Tree, d: Path)
    requires WF(t)
    ensures IsEmptyDir(t, d) <==> Children(t, d) == {}
  {
    if !IsEmptyDir(t, d) {
      var k :| k in t && d < k;
      var c := k[..|d| + 1];
      if |k| > |d| + 1 {
        WFPrefixes(t, k, |d| + 1);
      } else {
        assert c == k;
      }
      assert c in t && d < c && |c| == |d| + 1;
      assert c[|d|] in Children(t, d);
    }
  }

  /** Some proper prefix of `p` is a file: every system call through `p` fails with "not a directory". */
  predicate AncestorIsFile(t: Tree, p: Path)
  {
    exists i :: 0 < i < |p| && p[..i] in t && t[p[..i]].File?
  }

  // ---------------------------------------------------------------------
  // Creating parents
  // ---------------------------------------------------------------------

  /** The non-root prefixes of `d`, `d` included. */
  function PrefixesOf(d: Path): set<Path>
  {
    set i | 0 < i <= |d| :: d[..i]
  }

  /** os.MkdirAll: every missing directory on the way to `d` is created with time `now`. */
  function MkdirAll(t: Tree, d: Path, now: int): (r: Tree)
    ensures forall k :: k in r <==> k in t || k in PrefixesOf(d)
    ensures forall k :: k in t ==> r[k] == t[k]
  {
    map k | k in t.Keys + PrefixesOf(d) :: if k in t then t[k] else Directory(now)
  }

  /** Creating the parents of a path keeps the tree well formed unless one of them is a file. */
  lemma MkdirAllWF(t: Tree, p: Path, now: int)
    requires WF(t) && p != [] && !AncestorIsFile(t, p)
    ensures WF(MkdirAll(t, Parent(p), now))
    ensures var r := MkdirAll(t, Parent(p), now); forall i :: 0 < i < |p| ==> p[..i] in r && r[p[..i]].Directory?
  {
    var d := Parent(p);
    var r := MkdirAll(t, d, now);
    forall i | 0 < i < |p| ensures p[..i] in r && r[p[..i]].Directory? {
      assert p[..i] == d[..i];
      assert p[..i] in PrefixesOf(d);
    }
    forall k | k in r && |k| > 1 ensures Parent(k) in r && r[Parent(k)].Directory? {
      if k in t {
        assert Parent(k) in t;
      } else {
        var i :| 0 < i <= |d| && k == d[..i];
        assert Parent(k) == d[..i - 1] == p[..i - 1];
      }
    }
  }

  // ---------------------------------------------------------------------
  // Removing
  // ---------------------------------------------------------------------

  /** os.RemoveAll: the entry at `p` and everything below it disappear. */
  function RemoveSubtree(t: Tree, p: Path): (r: Tree)
    ensures forall k :: k in r <==> k in t && !(p <= k)
    ensures forall k :: k in r ==> r[k] == t[k]
  {
    map k | k in t && !(p <= k) :: t[k]
  }

  /**
    The pruning loop of Delete: remove `p`, then, while the parent just
    reached is not the root and is empty, remove it too.
   */
  function PruneUp(t: Tree, p: Path): Tree
    decreases |p|
  {
    if p == [] then t
    else
      var t' := RemoveSubtree(t, p);
      if Parent(p) != [] && IsEmptyDir(t', Parent(p)) then PruneUp(t', Parent(p)) else t'
  }

  /** Everything strictly below `q` lies in the subtree of `p` or on the way to it. */
  predicate OnlyPathBelow(t: Tree, q: Path, p: Path)
  {
    forall j :: j in t && q < j ==> p <= j || j < p
  }

  /** Whether Delete of `p` removes the key `k`: it is in the subtree of `p`, or a non-root ancestor with nothing else below it. */
  predicate Pruned(t: Tree, p: Path, k: Path)
  {
    p <= k || (k != [] && k < p && OnlyPathBelow(t, k, p))
  }

  lemma PrefixOfPrefix(a: Path, b: Path, c: Path)
    requires a <= c && b <= c && |a| <= |b|
    ensures a <= b
  {
    assert a == c[..|a|] && b[..|a|] == c[..|a|];
  }

  /**
    Delete removes exactly the subtree of `p` and the ancestors of `p`
    that had nothing else below them, never the root; every other entry
    is kept unchanged.
   */
  lemma {:induction false} PruneUpRemoves(t: Tree, p: Path)
    requires p != []
    ensures forall k :: k in PruneUp(t, p) <==> k in t && !Pruned(t, p, k)
    ensures forall k :: k in PruneUp(t, p) ==> PruneUp(t, p)[k] == t[k]
    decreases |p|
  {
    var t' := RemoveSubtree(t, p);
    var q := Parent(p);
    assert q < p;
    if q != [] && IsEmptyDir(t', q) {
      PruneUpRemoves(t', q);
      forall k ensures k in PruneUp(t, p) <==> k in t && !Pruned(t, p, k) {
        assert PruneUp(t, p) == PruneUp(t', q);
        if k in t && !(p <= k) {
          // k survives the first removal; compare the two pruning conditions.
          if q <= k {
            assert k == q;
            assert OnlyPathBelow(t, k, p) by {
              forall j | j in t && k < j ensures p <= j || j < p {
                assert j !in t';
              }
            }
          } else if k != [] && k < p {
            assert k < q by {
              PrefixOfPrefix(k, q, p);
              assert k != q;
            }
            if OnlyPathBelow(t', k, q) {
              forall j | j in t && k < j ensures p <= j || j < p {
                if !(p <= j) {
                  assert j in t';
                  if q <= j {
                    assert j == q;
                  }
                }
              }
            }
            if OnlyPathBelow(t, k, p) {
              forall j | j in t' && k < j ensures q <= j || j < q {
                assert j < p;
                assert j <= q by { PrefixOfPrefix(j, q, p); }
              }
            }
          }
        }
      }
    } else {
      forall k | k in t && !(p <= k) && k != [] && k < p ensures !OnlyPathBelow(t, k, p) {
        assert k <= q by { PrefixOfPrefix(k, q, p); }
        assert q != [];
        var j :| j in t' && q < j;
        assert k < j && |j| >= |p|;
        assert j in t && !(p <= j) && !(j < p);
      }
    }
  }

  /** Whatever lies below a pruned key is pruned too. */
  lemma PrunedBelow(t: Tree, p: Path, a: Path, k: Path)
    requires k in t && a < k
    ensures Pruned(t, p, a) ==> Pruned(t, p, k)
  {
    if Pruned(t, p, a) && !(p <= a) {
      if !(p <= k) {
        assert k < p;
        forall j | j in t && k < j ensures p <= j || j < p {
          assert a < j;
        }
      }
    }
  }

  /** Pruning keeps the tree well formed. */
  lemma PruneUpWF(t: Tree, p: Path)
    requires WF(t) && p != []
    ensures WF(PruneUp(t, p))
  {
    PruneUpRemoves(t, p);
    var r := PruneUp(t, p);
    forall k | k in r && |k| > 1 ensures Parent(k) in r && r[Parent(k)].Directory? {
      PrunedBelow(t, p, Parent(k), k);
    }
  }

  // ---------------------------------------------------------------------
  // Names in order
  // ---------------------------------------------------------------------

  /** Byte-wise (code-point) order of names, the order os.ReadDir returns entries in. */
  predicate LessEq(a: string, b: string)
  {
    a == [] || (b != [] && (a[0] < b[0] || (a[0] == b[0] && LessEq(a[1..], b[1..]))))
  }

  lemma LessEqReflexive(a: string)
    ensures LessEq(a, a)
  {
  }

  lemma LessEqTotal(a: string, b: string)
    ensures LessEq(a, b) || LessEq(b, a)
  {
  }

  lemma LessEqAntisymmetric(a: string, b: string)
    requires LessEq(a, b) && LessEq(b, a)
    ensures a == b
  {
    if a != [] && b != [] {
      LessEqAntisymmetric(a[1..], b[1..]);
      assert a == [a[0]] + a[1..] && b == [b[0]] + b[1..];
    }
  }

  lemma LessEqTransitive(a: string, b: string, c: string)
    requires LessEq(a, b) && LessEq(b, c)
    ensures LessEq(a, c)
  {
    if a != [] && b != [] && c != [] && a[0] == b[0] && b[0] == c[0] {
      LessEqTransitive(a[1..], b[1..], c[1..]);
    }
  }

  predicate IsLeast(m: string, names: set<string>)
  {
    m in names && forall x :: x in names ==> LessEq(m, x)
  }

  lemma {:induction false} LeastExists(names: set<string>)
    requires names != {}
    ensures exists m :: IsLeast(m, names)
    decreases |names|
  {
    var y :| y in names;
    LessEqReflexive(y);
    if names == {y} {
      assert IsLeast(y, names);
    } else {
      LeastExists(names - {y});
      var m :| IsLeast(m, names - {y});
      LessEqTotal(m, y);
      if LessEq(m, y) {
        assert IsLeast(m, names);
      } else {
        forall x | x in names ensures LessEq(y, x) {
          if x != y {
            LessEqTransitive(y, m, x);
          }
        }
        assert IsLeast(y, names);
      }
    }
  }

  lemma LeastUnique(m: string, m': string, names: set<string>)
    requires IsLeast(m, names) && IsLeast(m', names)
    ensures m == m'
  {
    LessEqAntisymmetric(m, m');
  }

  ghost function Least(names: set<string>): (m: string)
    requires names != {}
    ensures IsLeast(m, names)
  {
    LeastExists(names);
    var m :| IsLeast(m, names);
    m
  }

  /** The names in increasing order. */
  ghost function SortedNames(names: set<string>): seq<string>
    decreases |names|
  {
    if names == {} then []
    else
      var m := Least(names);
      [m] + SortedNames(names - {m})
  }

  /** The sorted names are the given names, each once, in strictly increasing order. */
  lemma {:induction false} SortedNamesMeaning(names: set<string>)
    ensures |SortedNames(names)| == |names|
    ensures forall x :: x in SortedNames(names) <==> x in names
    ensures forall i, j :: 0 <= i < j < |SortedNames(names)| ==>
      LessEq(SortedNames(names)[i], SortedNames(names)[j]) && SortedNames(names)[i] != SortedNames(names)[j]
    decreases |names|
  {
    if names != {} {
      var m := Least(names);
      var rest := SortedNames(names - {m});
      SortedNamesMeaning(names - {m});
      var r := SortedNames(names);
      assert r == [m] + rest;
      forall i, j | 0 <= i < j < |r| ensures LessEq(r[i], r[j]) && r[i] != r[j] {
        if i > 0 {
          assert r[i] == rest[i - 1] && r[j] == rest[j - 1];
        } else {
          assert r[j] == rest[j - 1] && r[j] in names - {m};
        }
      }
    }
  }

  /** The sorted names start with the least one. */
  lemma SortedNamesStep(names: set<string>, m: string)
    requires IsLeast(m, names)
    ensures SortedNames(names) == [m] + SortedNames(names - {m})
  {
    LeastUnique(m, Least(names), names);
  }

  /** Rendering a path as an object name: its names joined with "/". */
  function Render(p: Path): string
  {
    if p == [] then ""
    else if |p| == 1 then p[0]
    else Render(Parent(p)) + DirDelim + p[|p| - 1]
  }
}
