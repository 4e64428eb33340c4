/** The order of routing lists: strings compared by their characters, and sorting. */
module Strings {
  /** a comes before b or equals it. */
  predicate Leq(a: string, b: string) {
    if a == [] then true
    else if b == [] then false
    else a[0] < b[0] || (a[0] == b[0] && Leq(a[1..], b[1..]))
  }

  lemma {:induction false} LeqTotal(a: string, b: string)
    ensures Leq(a, b) || Leq(b, a)
    ensures Leq(a, b) && Leq(b, a) ==> a == b
  {
    if a != [] && b != [] {
      LeqTotal(a[1..], b[1..]);
      if a[0] == b[0] && a[1..] == b[1..] {
        assert a == [a[0]] + a[1..] && b == [b[0]] + b[1..];
      }
    }
  }

  lemma {:induction false} LeqTransitive(a: string, b: string, c: string)
    requires Leq(a, b) && Leq(b, c)
    ensures Leq(a, c)
  {
    if a != [] {
      if a[0] == b[0] && b[0] == c[0] {
        LeqTransitive(a[1..], b[1..], c[1..]);
      }
    }
  }

  /** The order of dictionaries: a begins b, or has the smaller character where they first differ. */
  lemma {:induction false} LeqMeaning(a: string, b: string)
    ensures Leq(a, b) <==>
            || (|a| <= |b| && b[..|a|] == a)
            || exists i :: 0 <= i < |a| && i < |b| && a[..i] == b[..i] && a[i] < b[i]
  {
    if a != [] && b != [] {
      LeqMeaning(a[1..], b[1..]);
      assert a == [a[0]] + a[1..] && b == [b[0]] + b[1..];
      if a[0] == b[0] {
        BeginsTail(a, b);
        DiffersInTail(a, b);
      } else if a[0] < b[0] {
        assert a[..0] == b[..0];
      } else {
        BeginAlike(a, b);
      }
    }
  }

  lemma BeginAlike(a: string, b: string)
    ensures forall i | 0 < i <= |a| && i <= |b| && a[..i] == b[..i] :: a[0] == b[0]
  {
    forall i | 0 < i <= |a| && i <= |b| && a[..i] == b[..i] ensures a[0] == b[0] {
      assert a[..i][0] == a[0] && b[..i][0] == b[0];
    }
  }

  lemma BeginsTail(a: string, b: string)
    requires a != [] && b != [] && a[0] == b[0]
    ensures |a| <= |b| && b[..|a|] == a <==> |a[1..]| <= |b[1..]| && b[1..][..|a[1..]|] == a[1..]
  {
    if |a| <= |b| {
      assert b[1..][..|a| - 1] == b[1..|a|];
      assert b[..|a|] == [b[0]] + b[1..|a|] && a == [a[0]] + a[1..];
    }
  }

  lemma DiffersInTail(a: string, b: string)
    requires a != [] && b != [] && a[0] == b[0]
    ensures (exists i :: 0 <= i < |a| && i < |b| && a[..i] == b[..i] && a[i] < b[i]) <==>
            exists i :: 0 <= i < |a[1..]| && i < |b[1..]| && a[1..][..i] == b[1..][..i] && a[1..][i] < b[1..][i]
  {
    if i :| 0 <= i < |a| && i < |b| && a[..i] == b[..i] && a[i] < b[i] {
      assert i > 0 && a[1..][..i - 1] == a[..i][1..] && b[1..][..i - 1] == b[..i][1..];
      assert a[1..][i - 1] < b[1..][i - 1];
    }
    if i :| 0 <= i < |a[1..]| && i < |b[1..]| && a[1..][..i] == b[1..][..i] && a[1..][i] < b[1..][i] {
      assert a[..i + 1] == [a[0]] + a[1..][..i] && b[..i + 1] == [b[0]] + b[1..][..i];
      assert a[i + 1] < b[i + 1];
    }
  }

  ghost predicate Sorted(xs: seq<string>) {
    forall i, j | 0 <= i < j < |xs| :: Leq(xs[i], xs[j])
  }

  function Insert(x: string, xs: seq<string>): seq<string> {
    if xs == [] then [x]
    else if Leq(x, xs[0]) then [x] + xs
    else [xs[0]] + Insert(x, xs[1..])
  }

  function Sort(xs: seq<string>): seq<string> {
    if xs == [] then [] else Insert(xs[0], Sort(xs[1..]))
  }

  lemma {:induction false} InsertSorts(x: string, xs: seq<string>)
    requires Sorted(xs)
    ensures Sorted(Insert(x, xs)) && multiset(Insert(x, xs)) == multiset(xs) + multiset{x}
  {
    if xs == [] {
    } else if Leq(x, xs[0]) {
      forall j | 0 <= j < |xs| ensures Leq(x, xs[j]) {
        if j > 0 {
          LeqTransitive(x, xs[0], xs[j]);
        }
      }
      assert multiset([x] + xs) == multiset{x} + multiset(xs);
    } else {
      var rest := Insert(x, xs[1..]);
      InsertSorts(x, xs[1..]);
      assert xs == [xs[0]] + xs[1..];
      forall j | 0 <= j < |rest| ensures Leq(xs[0], rest[j]) {
        LeqTotal(x, xs[0]);
        assert rest[j] in multiset(rest);
        if rest[j] != x {
          assert rest[j] in xs[1..];
        }
      }
    }
  }

  /** Sorting orders the list and keeps its elements. */
  lemma {:induction false} SortSorts(xs: seq<string>)
    ensures Sorted(Sort(xs)) && multiset(Sort(xs)) == multiset(xs)
  {
    if xs != [] {
      SortSorts(xs[1..]);
      InsertSorts(xs[0], Sort(xs[1..]));
      assert xs == [xs[0]] + xs[1..];
    }
  }
}
