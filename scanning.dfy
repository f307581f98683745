/**
 * Generic pieces of the analyser's searches: keeping the first element per key, scanning
 * a square of offsets row by row, and rearrangements that keep keys distinct.
 */
module Scanning {
  // ---------------------------------------------------------------------------------------
  // Keeping the first element per key

  /** No two elements of `s` share a key. */
  predicate DistinctBy<T>(s: seq<T>, key: T -> int) {
    forall i, j | 0 <= i < j < |s| :: key(s[i]) != key(s[j])
  }

  /** The elements of `s` whose key is met for the first time, the keys in `seen` counting as met already. */
  function KeepFirst<T>(s: seq<T>, key: T -> int, seen: set<int>): seq<T> {
    if s == [] then []
    else if key(s[0]) in seen then KeepFirst(s[1..], key, seen)
    else [s[0]] + KeepFirst(s[1..], key, seen + {key(s[0])})
  }

  /** What is kept comes from `s` and has a key not seen before. */
  lemma {:induction false} KeepFirstSound<T>(s: seq<T>, key: T -> int, seen: set<int>, x: T)
    requires x in KeepFirst(s, key, seen)
    ensures x in s && key(x) !in seen
  {
    if s[0] != x || key(s[0]) in seen {
      KeepFirstSound(s[1..], key, if key(s[0]) in seen then seen else seen + {key(s[0])}, x);
    }
  }

  /** What is kept has distinct keys. */
  lemma {:induction false} KeepFirstDistinct<T>(s: seq<T>, key: T -> int, seen: set<int>)
    ensures DistinctBy(KeepFirst(s, key, seen), key)
  {
    if s != [] {
      var x := s[0];
      if key(x) in seen {
        KeepFirstDistinct(s[1..], key, seen);
      } else {
        var rest := KeepFirst(s[1..], key, seen + {key(x)});
        KeepFirstDistinct(s[1..], key, seen + {key(x)});
        var r := [x] + rest;
        assert KeepFirst(s, key, seen) == r;
        forall i, j | 0 <= i < j < |r|
          ensures key(r[i]) != key(r[j])
        {
          if i == 0 {
            KeepFirstSound(s[1..], key, seen + {key(x)}, r[j]);
          } else {
            assert r[i] == rest[i - 1] && r[j] == rest[j - 1];
          }
        }
      }
    }
  }

  /** Every key of `s` not seen before is the key of something kept. */
  lemma {:induction false} KeepFirstComplete<T>(s: seq<T>, key: T -> int, seen: set<int>, x: T) returns (y: T)
    requires x in s && key(x) !in seen
    ensures y in KeepFirst(s, key, seen) && key(y) == key(x)
  {
    if s[0] == x || key(s[0]) == key(x) {
      y := s[0];
    } else {
      y := KeepFirstComplete(s[1..], key, if key(s[0]) in seen then seen else seen + {key(s[0])}, x);
    }
  }

  /** Drops every element whose cell index an earlier element already has. */
  method DropRepeatedIdx<T>(s: seq<T>, key: T -> int) returns (unique: seq<T>)
    ensures unique == KeepFirst(s, key, {})
  {
    unique := [];
    var seen: set<int> := {};
    for i := 0 to |s|
      invariant unique + KeepFirst(s[i..], key, seen) == KeepFirst(s, key, {})
    {
      assert s[i..][1..] == s[i + 1..];
      if key(s[i]) !in seen {
        assert unique + KeepFirst(s[i..], key, seen) == (unique + [s[i]]) + KeepFirst(s[i + 1..], key, seen + {key(s[i])});
        unique := unique + [s[i]];
        seen := seen + {key(s[i])};
      }
    }
    assert s[|s|..] == [];
  }

  /** The keys of the elements of `s`. */
  function Keys<T>(s: seq<T>, key: T -> int): set<int> {
    set i | 0 <= i < |s| :: key(s[i])
  }

  /** Keeping the first per key, one more element at the end: it is kept exactly when its key is new. */
  lemma {:induction false} KeepFirstSnoc<T>(s: seq<T>, key: T -> int, seen: set<int>, x: T)
    ensures KeepFirst(s + [x], key, seen) ==
            KeepFirst(s, key, seen) + if key(x) in seen + Keys(s, key) then [] else [x]
  {
    if s == [] {
      assert Keys(s, key) == {};
      assert [x][1..] == [];
    } else {
      assert (s + [x])[1..] == s[1..] + [x];
      assert Keys(s, key) == Keys(s[1..], key) + {key(s[0])} by {
        forall k | k in Keys(s, key) ensures k in Keys(s[1..], key) + {key(s[0])} {
          var i :| 0 <= i < |s| && key(s[i]) == k;
          if i > 0 {
            assert s[1..][i - 1] == s[i];
          }
        }
        forall k | k in Keys(s[1..], key) ensures k in Keys(s, key) {
          var i :| 0 <= i < |s[1..]| && key(s[1..][i]) == k;
          assert s[i + 1] == s[1..][i];
        }
      }
      if key(s[0]) in seen {
        KeepFirstSnoc(s[1..], key, seen, x);
      } else {
        KeepFirstSnoc(s[1..], key, seen + {key(s[0])}, x);
      }
    }
  }

  // ---------------------------------------------------------------------------------------
  // Scanning the samples of a segment, one after the other

  /** What a scan collects at the samples 0 up to n - 1, sample by sample. */
  function Samples<X>(g: int -> seq<X>, n: int): seq<X>
    decreases n
  {
    if n <= 0 then [] else Samples(g, n - 1) + g(n - 1)
  }

  lemma SamplesStep<X>(g: int -> seq<X>, n: int)
    requires n >= 0
    ensures Samples(g, n + 1) == Samples(g, n) + g(n)
  {
  }

  lemma {:induction false} SamplesMember<X>(g: int -> seq<X>, n: int, x: X)
    ensures x in Samples(g, n) <==> exists i | 0 <= i < n :: x in g(i)
    decreases n
  {
    if n > 0 {
      SamplesMember(g, n - 1, x);
    }
  }

  /** Scans with the same findings at every sample collect the same. */
  lemma {:induction false} SamplesAgree<X>(f: int -> seq<X>, g: int -> seq<X>, n: int)
    requires forall i | 0 <= i < n :: f(i) == g(i)
    ensures Samples(f, n) == Samples(g, n)
    decreases n
  {
    if n > 0 {
      SamplesAgree(f, g, n - 1);
    }
  }

  // ---------------------------------------------------------------------------------------
  // Scanning the square of offsets around a point

  /** What a scan collects in column dx of the square, for dy from -radius up to dyEnd - 1. */
  function Column<X>(at: ((int, int)) -> seq<X>, radius: int, dx: int, dyEnd: int): seq<X>
    decreases dyEnd + radius
  {
    if dyEnd <= -radius then []
    else Column(at, radius, dx, dyEnd - 1) + at((dx, dyEnd - 1))
  }

  /** What a scan collects in the whole column dx. */
  function FullColumn<X>(at: ((int, int)) -> seq<X>, radius: int, dx: int): seq<X> {
    Column(at, radius, dx, radius + 1)
  }

  /** What a scan collects in the columns from -radius up to dxEnd - 1, column by column. */
  function Columns<X>(at: ((int, int)) -> seq<X>, radius: int, dxEnd: int): seq<X>
    decreases dxEnd + radius
  {
    if dxEnd <= -radius then []
    else Columns(at, radius, dxEnd - 1) + FullColumn(at, radius, dxEnd - 1)
  }

  /** What a scan of the whole square from -radius to radius in both coordinates collects. */
  function SquareScan<X>(at: ((int, int)) -> seq<X>, radius: int): seq<X> {
    Columns(at, radius, radius + 1)
  }

  lemma ColumnStep<X>(at: ((int, int)) -> seq<X>, radius: int, dx: int, dy: int)
    requires dy >= -radius
    ensures Column(at, radius, dx, dy + 1) == Column(at, radius, dx, dy) + at((dx, dy))
  {
  }

  lemma ColumnsStep<X>(at: ((int, int)) -> seq<X>, radius: int, dx: int)
    requires dx >= -radius
    ensures Columns(at, radius, dx + 1) == Columns(at, radius, dx) + FullColumn(at, radius, dx)
  {
  }

  lemma {:induction false} ColumnMember<X>(at: ((int, int)) -> seq<X>, radius: int, dx: int, dyEnd: int, x: X)
    ensures x in Column(at, radius, dx, dyEnd) <==> exists dy | -radius <= dy < dyEnd :: x in at((dx, dy))
    decreases dyEnd + radius
  {
    if dyEnd > -radius {
      ColumnMember(at, radius, dx, dyEnd - 1, x);
    }
  }

  lemma {:induction false} ColumnsMember<X>(at: ((int, int)) -> seq<X>, radius: int, dxEnd: int, x: X)
    ensures x in Columns(at, radius, dxEnd) <==> exists dx | -radius <= dx < dxEnd :: x in FullColumn(at, radius, dx)
    decreases dxEnd + radius
  {
    if dxEnd > -radius {
      ColumnsMember(at, radius, dxEnd - 1, x);
    }
  }

  /** What a scan collects, it collects at some offset of the square. */
  lemma ScanHit<X>(at: ((int, int)) -> seq<X>, radius: int, x: X) returns (dx: int, dy: int)
    requires x in SquareScan(at, radius)
    ensures -radius <= dx <= radius && -radius <= dy <= radius && x in at((dx, dy))
  {
    ColumnsMember(at, radius, radius + 1, x);
    dx :| -radius <= dx < radius + 1 && x in FullColumn(at, radius, dx);
    ColumnMember(at, radius, dx, radius + 1, x);
    dy :| -radius <= dy < radius + 1 && x in at((dx, dy));
  }

  /** What there is at an offset of the square, a scan collects. */
  lemma HitScanned<X>(at: ((int, int)) -> seq<X>, radius: int, dx: int, dy: int, x: X)
    requires -radius <= dx <= radius && -radius <= dy <= radius && x in at((dx, dy))
    ensures x in SquareScan(at, radius)
  {
    ColumnMember(at, radius, dx, radius + 1, x);
    assert x in FullColumn(at, radius, dx);
    ColumnsMember(at, radius, radius + 1, x);
  }

  /** Scans with the same findings at every offset collect the same. */
  lemma {:induction false} ColumnAgree<X>(f: ((int, int)) -> seq<X>, g: ((int, int)) -> seq<X>, radius: int, dx: int, dyEnd: int)
    requires forall d :: f(d) == g(d)
    ensures Column(f, radius, dx, dyEnd) == Column(g, radius, dx, dyEnd)
    decreases dyEnd + radius
  {
    if dyEnd > -radius {
      ColumnAgree(f, g, radius, dx, dyEnd - 1);
    }
  }

  lemma {:induction false} ColumnsAgree<X>(f: ((int, int)) -> seq<X>, g: ((int, int)) -> seq<X>, radius: int, dxEnd: int)
    requires forall d :: f(d) == g(d)
    ensures Columns(f, radius, dxEnd) == Columns(g, radius, dxEnd)
    decreases dxEnd + radius
  {
    if dxEnd > -radius {
      ColumnsAgree(f, g, radius, dxEnd - 1);
      ColumnAgree(f, g, radius, dxEnd - 1, radius + 1);
    }
  }

  // ---------------------------------------------------------------------------------------
  // Sequences with the same elements

  /** Rearranging a sequence keeps its keys distinct. */
  lemma DistinctByPermutation<T>(a: seq<T>, b: seq<T>, key: T -> int)
    requires multiset(a) == multiset(b) && DistinctBy(a, key)
    ensures DistinctBy(b, key)
  {
    forall i, j | 0 <= i < j < |b|
      ensures key(b[i]) != key(b[j])
    {
      var ia, ja;
      if b[i] == b[j] {
        TwoIndicesCountTwice(b, i, j);
        ia, ja := TwoPositions(a, b[i]);
      } else {
        assert b[i] in multiset(a) && b[j] in multiset(a);
        ia :| 0 <= ia < |a| && a[ia] == b[i];
        ja :| 0 <= ja < |a| && a[ja] == b[j];
      }
      assert ia != ja;
      if ia < ja {
        assert key(a[ia]) != key(a[ja]);
      } else {
        assert key(a[ja]) != key(a[ia]);
      }
    }
  }

  /** A value at two positions of a sequence occurs there at least twice. */
  lemma TwoIndicesCountTwice<T>(s: seq<T>, i: int, j: int)
    requires 0 <= i < j < |s| && s[i] == s[j]
    ensures multiset(s)[s[i]] >= 2
  {
    assert s == s[..j] + [s[j]] + s[j + 1..];
    assert s[..j][i] == s[i];
  }

  /** A value occurring at least twice sits at two different positions. */
  lemma {:induction false} TwoPositions<T>(s: seq<T>, x: T) returns (i: int, j: int)
    requires multiset(s)[x] >= 2
    ensures 0 <= i < j < |s| && s[i] == x && s[j] == x
  {
    assert s == [s[0]] + s[1..];
    if s[0] == x {
      assert x in multiset(s[1..]);
      var k :| 0 <= k < |s[1..]| && s[1..][k] == x;
      i, j := 0, k + 1;
    } else {
      var i', j' := TwoPositions(s[1..], x);
      i, j := i' + 1, j' + 1;
    }
  }
}
