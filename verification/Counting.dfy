/** Finite sets of room-nights and how many elements they have. */
module Counting {

  /** One night of one room. */
  datatype Cell = Cell(room: int, night: int)

  ghost function Nights(room: int, a: int, z: int): set<Cell>
    decreases z - a
  {
    if a >= z then {} else Nights(room, a, z - 1) + {Cell(room, z - 1)}
  }

  lemma {:induction false} NightsCount(room: int, a: int, z: int)
    ensures forall c :: c in Nights(room, a, z) <==> c.room == room && a <= c.night < z
    ensures |Nights(room, a, z)| == if a < z then z - a else 0
    decreases z - a
  {
    if a >= z {
    } else {
      NightsCount(room, a, z - 1);
    }
  }

  lemma DisjointCount<T>(a: set<T>, b: set<T>)
    requires forall c :: c in a ==> c !in b
    ensures |a + b| == |a| + |b|
  {
    assert a !! b;
  }

  ghost function Column(rooms: set<int>, night: int): set<Cell> {
    set r | r in rooms :: Cell(r, night)
  }

  ghost function Image<S, T>(s: set<S>, f: S -> T): set<T> {
    set x | x in s :: f(x)
  }

  /** The image of a set under a map that tells its elements apart is as large as the set. */
  lemma {:induction false} ImageCount<S, T>(s: set<S>, f: S -> T)
    requires forall x, y :: x in s && y in s && f(x) == f(y) ==> x == y
    ensures |Image(s, f)| == |s|
    decreases s
  {
    if s == {} {
    } else {
      var r :| r in s;
      ImageCount(s - {r}, f);
      assert Image(s, f) == Image(s - {r}, f) + {f(r)};
    }
  }

  lemma ColumnCount(rooms: set<int>, night: int)
    ensures |Column(rooms, night)| == |rooms|
  {
    var f := (r: int) => Cell(r, night);
    ImageCount(rooms, f);
    forall c ensures c in Column(rooms, night) <==> c in Image(rooms, f) {
      if c in Column(rooms, night) { assert f(c.room) == c; }
    }
    SameElements(Column(rooms, night), Image(rooms, f));
  }

  lemma SameElements<T>(a: set<T>, b: set<T>)
    requires forall x :: x in a <==> x in b
    ensures a == b
  {
  }

  ghost function Grid(rooms: set<int>, lo: int, hi: int): set<Cell>
    decreases hi - lo
  {
    if lo >= hi then {} else Grid(rooms, lo, hi - 1) + Column(rooms, hi - 1)
  }

  lemma {:induction false} InGrid(rooms: set<int>, lo: int, hi: int, c: Cell)
    ensures c in Grid(rooms, lo, hi) <==> c.room in rooms && lo <= c.night < hi
    decreases hi - lo
  {
    if lo >= hi {
    } else {
      InGrid(rooms, lo, hi - 1, c);
    }
  }

  lemma GridGrows(rooms: set<int>, lo: int, hi: int)
    requires lo < hi
    ensures |Grid(rooms, lo, hi)| == |Grid(rooms, lo, hi - 1)| + |rooms|
  {
    var before, last := Grid(rooms, lo, hi - 1), Column(rooms, hi - 1);
    ColumnCount(rooms, hi - 1);
    forall c | c in before ensures c !in last {
      InGrid(rooms, lo, hi - 1, c);
    }
    DisjointCount(before, last);
  }

  lemma OneMoreTime(a: int, n: int)
    ensures a * n == a * (n - 1) + a
  {
  }

  lemma {:induction false} GridCount(rooms: set<int>, lo: int, hi: int)
    requires lo <= hi
    ensures |Grid(rooms, lo, hi)| == |rooms| * (hi - lo)
    decreases hi - lo
  {
    if lo < hi {
      GridCount(rooms, lo, hi - 1);
      GridGrows(rooms, lo, hi);
      OneMoreTime(|rooms|, hi - lo);
    } else {
      assert Grid(rooms, lo, hi) == {};
    }
  }

  lemma SubsetCount<T>(a: set<T>, b: set<T>)
    requires a <= b
    ensures |a| <= |b|
  {
    assert b == a + (b - a);
  }
}
