/** Sorting strings, and why a sorted list is determined by what it contains. */
module Sorting {

  /** Byte order on strings. */
  predicate StrLe(a: string, b: string) {
    a == [] || (b != [] && (a[0] < b[0] || (a[0] == b[0] && StrLe(a[1..], b[1..]))))
  }

  lemma {:induction false} StrLeTotal(a: string, b: string)
    ensures StrLe(a, b) || StrLe(b, a)
  {
    if a != [] && b != [] {
      StrLeTotal(a[1..], b[1..]);
    }
  }

  lemma {:induction false} StrLeAntisymmetric(a: string, b: string)
    requires StrLe(a, b) && StrLe(b, a)
    ensures a == b
  {
    if a != [] {
      StrLeAntisymmetric(a[1..], b[1..]);
      assert a == [a[0]] + a[1..] && b == [b[0]] + b[1..];
    }
  }

  lemma {:induction false} StrLeTransitive(a: string, b: string, c: string)
    requires StrLe(a, b) && StrLe(b, c)
    ensures StrLe(a, c)
  {
    if a != [] && a[0] == b[0] && b[0] == c[0] {
      StrLeTransitive(a[1..], b[1..], c[1..]);
    }
  }

  /** One string is before another if it is its beginning, or has the smaller character at
      the first place where they differ. */
  lemma {:induction false} StrLeMeaning(a: string, b: string)
    ensures StrLe(a, b) <==> a <= b || exists k :: DiffersFirst(a, b, k) && a[k] < b[k]
  {
    if a != [] && b != [] && a[0] == b[0] {
      StrLeMeaning(a[1..], b[1..]);
      assert a == [a[0]] + a[1..] && b == [b[0]] + b[1..];
      assert a <= b <==> a[1..] <= b[1..];
      if k :| DiffersFirst(a, b, k) && a[k] < b[k] {
        assert a[1..k] == a[1..][..k - 1] && b[1..k] == b[1..][..k - 1];
        assert a[..k][1..] == a[1..k] && b[..k][1..] == b[1..k];
        assert DiffersFirst(a[1..], b[1..], k - 1);
      }
      if k :| DiffersFirst(a[1..], b[1..], k) && a[1..][k] < b[1..][k] {
        assert a[..k + 1] == [a[0]] + a[1..][..k] && b[..k + 1] == [b[0]] + b[1..][..k];
        assert DiffersFirst(a, b, k + 1);
      }
    } else if a != [] && b != [] {
      assert a[..0] == b[..0] == [];
      assert DiffersFirst(a, b, 0);
      if k :| DiffersFirst(a, b, k) && a[k] < b[k] {
        assert k > 0 ==> a[..k][0] == b[..k][0];
      }
    }
  }

  predicate DiffersFirst(a: string, b: string, k: int) {
    0 <= k < |a| && k < |b| && a[..k] == b[..k] && a[k] != b[k]
  }

  predicate IsSorted(xs: seq<string>) {
    forall i, j | 0 <= i < j < |xs| :: StrLe(xs[i], xs[j])
  }

  function Insert(x: string, xs: seq<string>): seq<string> {
    if xs == [] || StrLe(x, xs[0]) then [x] + xs else [xs[0]] + Insert(x, xs[1..])
  }

  /** The strings in order; equal strings stay. */
  function Sorted(xs: seq<string>): seq<string> {
    if xs == [] then [] else Insert(xs[0], Sorted(xs[1..]))
  }

  lemma {:induction false} InsertContents(x: string, xs: seq<string>)
    ensures multiset(Insert(x, xs)) == multiset(xs) + multiset{x}
  {
    if xs != [] && !StrLe(x, xs[0]) {
      InsertContents(x, xs[1..]);
      assert xs == [xs[0]] + xs[1..];
    }
  }

  lemma {:induction false} InsertSorted(x: string, xs: seq<string>)
    requires IsSorted(xs)
    ensures IsSorted(Insert(x, xs))
  {
    if xs == [] {
    } else if StrLe(x, xs[0]) {
      forall j | 0 <= j < |xs| ensures StrLe(x, xs[j]) {
        if j > 0 {
          StrLeTransitive(x, xs[0], xs[j]);
        }
      }
    } else {
      StrLeTotal(x, xs[0]);
      var rest := Insert(x, xs[1..]);
      InsertSorted(x, xs[1..]);
      InsertContents(x, xs[1..]);
      forall j | 0 <= j < |rest| ensures StrLe(xs[0], rest[j]) {
        assert rest[j] in multiset(rest);
        assert rest[j] == x || rest[j] in xs[1..];
      }
    }
  }

  lemma {:induction false} SortedIsSorted(xs: seq<string>)
    ensures IsSorted(Sorted(xs)) && multiset(Sorted(xs)) == multiset(xs) && |Sorted(xs)| == |xs|
  {
    if xs != [] {
      SortedIsSorted(xs[1..]);
      InsertSorted(xs[0], Sorted(xs[1..]));
      InsertContents(xs[0], Sorted(xs[1..]));
      assert xs == [xs[0]] + xs[1..];
    }
    assert |multiset(Sorted(xs))| == |Sorted(xs)| && |multiset(xs)| == |xs|;
  }

  lemma TailContents(xs: seq<string>)
    requires xs != []
    ensures multiset(xs) == multiset{xs[0]} + multiset(xs[1..])
  {
    assert xs == [xs[0]] + xs[1..];
  }

  lemma Cancel(x: string, a: multiset<string>, b: multiset<string>)
    requires multiset{x} + a == multiset{x} + b
    ensures a == b
  {
    assert a == multiset{x} + a - multiset{x} && b == multiset{x} + b - multiset{x};
  }

  lemma SameEmptiness(xs: seq<string>, ys: seq<string>)
    requires multiset(xs) == multiset(ys)
    ensures |xs| == |ys|
  {
    assert |multiset(xs)| == |xs| && |multiset(ys)| == |ys|;
  }

  lemma SameHead(xs: seq<string>, ys: seq<string>)
    requires IsSorted(xs) && IsSorted(ys) && multiset(xs) == multiset(ys) && xs != [] && ys != []
    ensures xs[0] == ys[0]
  {
    assert xs[0] in multiset(ys) && ys[0] in multiset(xs);
    HeadIsLeast(xs, ys[0]);
    HeadIsLeast(ys, xs[0]);
    hide StrLe;
    StrLeAntisymmetric(xs[0], ys[0]);
  }

  /** Two sorted lists with the same contents are the same list. */
  lemma {:induction false} SortedIsUnique(xs: seq<string>, ys: seq<string>)
    requires IsSorted(xs) && IsSorted(ys) && multiset(xs) == multiset(ys)
    ensures xs == ys
  {
    SameEmptiness(xs, ys);
    if xs != [] {
      SameHead(xs, ys);
      TailContents(xs);
      TailContents(ys);
      assert IsSorted(xs[1..]) && IsSorted(ys[1..]);
      hide IsSorted, StrLe;
      Cancel(xs[0], multiset(xs[1..]), multiset(ys[1..]));
      SortedIsUnique(xs[1..], ys[1..]);
      assert xs == [xs[0]] + xs[1..] && ys == [ys[0]] + ys[1..];
    }
  }

  lemma HeadIsLeast(xs: seq<string>, x: string)
    requires IsSorted(xs) && x in xs
    ensures StrLe(xs[0], x)
  {
    StrLeReflexive(xs[0]);
  }

  lemma {:induction false} StrLeReflexive(a: string)
    ensures StrLe(a, a)
  {
    if a != [] {
      StrLeReflexive(a[1..]);
    }
  }

  /** Sorting forgets the order in which the strings came. */
  lemma SortedForgetsOrder(xs: seq<string>, ys: seq<string>)
    ensures Sorted(xs) == Sorted(ys) <==> multiset(xs) == multiset(ys)
  {
    SortedIsSorted(xs);
    SortedIsSorted(ys);
    if multiset(xs) == multiset(ys) {
      SortedIsUnique(Sorted(xs), Sorted(ys));
    }
  }

  // ----- joining with commas -----

  function Join(parts: seq<string>): string {
    if parts == [] then ""
    else if |parts| == 1 then parts[0]
    else parts[0] + "," + Join(parts[1..])
  }

  /** The pieces between the commas, at least one. */
  function Pieces(s: string): (r: seq<string>)
    ensures r != []
  {
    if s == "" then [""]
    else if s[0] == ',' then [""] + Pieces(s[1..])
    else
      var rest := Pieces(s[1..]);
      [[s[0]] + rest[0]] + rest[1..]
  }

  function AllPieces(parts: seq<string>): seq<string> {
    if parts == [] then [] else Pieces(parts[0]) + AllPieces(parts[1..])
  }

  function Prepend(c: char, rest: seq<string>): seq<string>
    requires rest != []
  {
    [[c] + rest[0]] + rest[1..]
  }

  lemma PrependConcat(c: char, a: seq<string>, b: seq<string>)
    requires a != []
    ensures Prepend(c, a + b) == Prepend(c, a) + b
  {
    assert (a + b)[1..] == a[1..] + b;
  }

  lemma {:induction false} PiecesOfPair(a: string, b: string)
    ensures Pieces(a + "," + b) == Pieces(a) + Pieces(b)
  {
    if a == "" {
      assert a + "," + b == "," + b;
      assert ("," + b)[1..] == b;
    } else {
      var s := a + "," + b;
      assert s != "" && s[0] == a[0] && s[1..] == a[1..] + "," + b;
      PiecesOfPair(a[1..], b);
      if a[0] == ',' {
        assert Pieces(s) == [""] + Pieces(s[1..]);
      } else {
        assert Pieces(s) == Prepend(a[0], Pieces(s[1..]));
        assert Pieces(a) == Prepend(a[0], Pieces(a[1..]));
        hide Pieces;
        PrependConcat(a[0], Pieces(a[1..]), Pieces(b));
      }
    }
  }

  /** Splitting undoes joining, whatever commas the parts hold themselves. */
  lemma {:induction false} PiecesOfJoin(parts: seq<string>)
    requires parts != []
    ensures Pieces(Join(parts)) == AllPieces(parts)
  {
    if |parts| == 1 {
      assert AllPieces(parts[1..]) == [];
    } else {
      PiecesOfPair(parts[0], Join(parts[1..]));
      PiecesOfJoin(parts[1..]);
    }
  }

  lemma {:induction false} PiecesOfPlain(s: string)
    requires ',' !in s
    ensures Pieces(s) == [s]
  {
    if s != "" {
      PiecesOfPlain(s[1..]);
      assert s == [s[0]] + s[1..];
    }
  }

  lemma {:induction false} AllPiecesConcat(a: seq<string>, b: seq<string>)
    ensures AllPieces(a + b) == AllPieces(a) + AllPieces(b)
  {
    if a == [] {
      assert a + b == b;
    } else {
      assert (a + b)[1..] == a[1..] + b;
      AllPiecesConcat(a[1..], b);
    }
  }

  lemma {:induction false} AllPiecesPlain(parts: seq<string>)
    requires forall p | p in parts :: ',' !in p
    ensures AllPieces(parts) == parts
  {
    if parts != [] {
      PiecesOfPlain(parts[0]);
      AllPiecesPlain(parts[1..]);
    }
  }

  lemma TakeOut(b: seq<string>, x: string) returns (l: seq<string>, r: seq<string>)
    requires x in multiset(b)
    ensures b == l + ([x] + r) && multiset(b) == multiset{x} + multiset(l + r)
  {
    var i :| 0 <= i < |b| && b[i] == x;
    l, r := b[..i], b[i + 1..];
    assert b == l + ([x] + r);
  }

  lemma PiecesWithoutOne(a: seq<string>, x: string, c: seq<string>)
    ensures multiset(AllPieces(a + ([x] + c))) == multiset(Pieces(x)) + multiset(AllPieces(a + c))
  {
    AllPiecesConcat(a, [x] + c);
    AllPiecesConcat(a, c);
    HeadPieces([x] + c);
    assert ([x] + c)[1..] == c;
    hide AllPieces, Pieces;
  }

  lemma HeadPieces(a: seq<string>)
    requires a != []
    ensures multiset(AllPieces(a)) == multiset(Pieces(a[0])) + multiset(AllPieces(a[1..]))
  {
    hide Pieces;
  }

  /** The pieces depend on what the list contains, not on its order. */
  lemma {:induction false} AllPiecesContents(a: seq<string>, b: seq<string>)
    requires multiset(a) == multiset(b)
    ensures multiset(AllPieces(a)) == multiset(AllPieces(b))
    decreases |a|
  {
    SameEmptiness(a, b);
    if a == [] {
      assert b == [];
    } else {
      assert a[0] in multiset(b);
      hide AllPieces, Pieces;
      var l, r := TakeOut(b, a[0]);
      TailContents(a);
      Cancel(a[0], multiset(a[1..]), multiset(l + r));
      AllPiecesContents(a[1..], l + r);
      PiecesWithoutOne(l, a[0], r);
      HeadPieces(a);
    }
  }
}
