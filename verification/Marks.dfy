/** Selecting positions of a sequence by a parallel sequence of marks. */
module Marks {
  function Count(marks: seq<bool>): (n: nat)
    ensures n <= |marks|
  {
    if marks == [] then 0 else (if marks[0] then 1 else 0) + Count(marks[1..])
  }

  /** Keeps the first k marks and clears the later ones. */
  function FirstMarks(hits: seq<bool>, k: nat): (marks: seq<bool>)
    ensures |marks| == |hits|
  {
    if hits == [] then []
    else if hits[0] && k > 0 then [true] + FirstMarks(hits[1..], k - 1)
    else [false] + FirstMarks(hits[1..], k)
  }

  /** The marked elements, in order. */
  function Taken<T>(xs: seq<T>, marks: seq<bool>): (r: seq<T>)
    requires |xs| == |marks|
  {
    if xs == [] then []
    else (if marks[0] then [xs[0]] else []) + Taken(xs[1..], marks[1..])
  }

  /** The unmarked elements, in order. */
  function Kept<T>(xs: seq<T>, marks: seq<bool>): (r: seq<T>)
    requires |xs| == |marks|
  {
    if xs == [] then []
    else (if marks[0] then [] else [xs[0]]) + Kept(xs[1..], marks[1..])
  }

  lemma {:induction false} FirstMarksAt(hits: seq<bool>, k: nat, i: nat)
    requires i < |hits|
    ensures FirstMarks(hits, k)[i] == (hits[i] && Count(FirstMarks(hits, k)[..i]) < k)
  {
    var marks := FirstMarks(hits, k);
    if i > 0 {
      var rest := if hits[0] && k > 0 then k - 1 else k;
      FirstMarksAt(hits[1..], rest, i - 1);
      assert marks[1..] == FirstMarks(hits[1..], rest);
      assert marks[..i][1..] == FirstMarks(hits[1..], rest)[..i - 1];
    }
  }

  lemma {:induction false} TakenCount<T>(xs: seq<T>, marks: seq<bool>)
    requires |xs| == |marks|
    ensures |Taken(xs, marks)| == Count(marks)
    ensures |Kept(xs, marks)| == |xs| - Count(marks)
  {
    if xs != [] {
      TakenCount(xs[1..], marks[1..]);
    }
  }

  lemma {:induction false} SplitTaken<T>(xs: seq<T>, marks: seq<bool>, i: nat)
    requires |xs| == |marks| && i <= |xs|
    ensures Taken(xs, marks) == Taken(xs[..i], marks[..i]) + Taken(xs[i..], marks[i..])
  {
    if i == 0 {
      assert xs[0..] == xs && marks[0..] == marks;
      assert Taken(xs[..0], marks[..0]) == [];
    } else {
      var ys, ms := xs[1..], marks[1..];
      var head := if marks[0] then [xs[0]] else [];
      var a, b := Taken(ys[..i - 1], ms[..i - 1]), Taken(ys[i - 1..], ms[i - 1..]);
      SplitTaken(ys, ms, i - 1);
      assert xs[..i][1..] == ys[..i - 1] && marks[..i][1..] == ms[..i - 1];
      assert xs[i..] == ys[i - 1..] && marks[i..] == ms[i - 1..];
      assert Taken(xs, marks) == head + (a + b);
      assert Taken(xs[..i], marks[..i]) == head + a;
      assert head + (a + b) == (head + a) + b;
    }
  }

  lemma {:induction false} SplitKept<T>(xs: seq<T>, marks: seq<bool>, i: nat)
    requires |xs| == |marks| && i <= |xs|
    ensures Kept(xs, marks) == Kept(xs[..i], marks[..i]) + Kept(xs[i..], marks[i..])
  {
    if i == 0 {
      assert xs[0..] == xs && marks[0..] == marks;
      assert Kept(xs[..0], marks[..0]) == [];
    } else {
      var ys, ms := xs[1..], marks[1..];
      var head := if marks[0] then [] else [xs[0]];
      var a, b := Kept(ys[..i - 1], ms[..i - 1]), Kept(ys[i - 1..], ms[i - 1..]);
      SplitKept(ys, ms, i - 1);
      assert xs[..i][1..] == ys[..i - 1] && marks[..i][1..] == ms[..i - 1];
      assert xs[i..] == ys[i - 1..] && marks[i..] == ms[i - 1..];
      assert Kept(xs, marks) == head + (a + b);
      assert Kept(xs[..i], marks[..i]) == head + a;
      assert head + (a + b) == (head + a) + b;
    }
  }

  lemma {:induction false} SplitCount(marks: seq<bool>, i: nat)
    requires i <= |marks|
    ensures Count(marks) == Count(marks[..i]) + Count(marks[i..])
  {
    if i == 0 {
      assert marks[0..] == marks;
    } else {
      SplitCount(marks[1..], i - 1);
      assert marks[..i][1..] == marks[1..][..i - 1] && marks[i..] == marks[1..][i - 1..];
    }
  }

  /** A pass that has dealt with the first i of the elements xs has left now and put out. */
  ghost predicate PassedTo<T>(xs: seq<T>, marks: seq<bool>, i: nat, now: seq<T>, out: seq<T>) {
    && |xs| == |marks| && i <= |xs|
    && now == Kept(xs[..i], marks[..i]) + xs[i..]
    && out == Taken(xs[..i], marks[..i])
  }

  lemma PassStep<T>(xs: seq<T>, marks: seq<bool>, i: nat, now: seq<T>, out: seq<T>)
    requires PassedTo(xs, marks, i, now, out) && i < |xs|
    ensures i - |out| == |Kept(xs[..i], marks[..i])| >= 0 && |now| == |xs| - |out|
    ensures now[i - |out|] == xs[i]
    ensures
      if marks[i] then
        PassedTo(xs, marks, i + 1, now[..i - |out|] + now[i - |out| + 1..], out + [xs[i]])
      else
        PassedTo(xs, marks, i + 1, now, out)
  {
    TakenCount(xs[..i], marks[..i]);
    PassedOne(xs, marks, i);
    assert xs[i..] == [xs[i]] + xs[i + 1..];
    Middle(Kept(xs[..i], marks[..i]), xs[i], xs[i + 1..]);
  }

  lemma Middle<T>(a: seq<T>, x: T, b: seq<T>)
    ensures var s := a + ([x] + b);
            s[|a|] == x && s[..|a|] == a && s[|a| + 1..] == b && s == (a + [x]) + b
  {
  }

  lemma PassedOne<T>(xs: seq<T>, marks: seq<bool>, i: nat)
    requires |xs| == |marks| && i < |xs|
    ensures Kept(xs[..i + 1], marks[..i + 1]) == Kept(xs[..i], marks[..i]) + if marks[i] then [] else [xs[i]]
    ensures Taken(xs[..i + 1], marks[..i + 1]) == Taken(xs[..i], marks[..i]) + if marks[i] then [xs[i]] else []
  {
    SplitKept(xs[..i + 1], marks[..i + 1], i);
    SplitTaken(xs[..i + 1], marks[..i + 1], i);
    assert xs[..i + 1][..i] == xs[..i] && marks[..i + 1][..i] == marks[..i];
    assert xs[..i + 1][i..] == [xs[i]] && marks[..i + 1][i..] == [marks[i]];
  }

  ghost predicate ClearFrom(marks: seq<bool>, p: nat) {
    forall i | p <= i < |marks| :: !marks[i]
  }

  /** Nothing is taken where nothing is marked. */
  lemma {:induction false} AllClear<T>(xs: seq<T>, marks: seq<bool>)
    requires |xs| == |marks| && ClearFrom(marks, 0)
    ensures Taken(xs, marks) == [] && Count(marks) == 0 && Kept(xs, marks) == xs
  {
    if xs != [] {
      AllClear(xs[1..], marks[1..]);
    }
  }

  lemma {:induction false} ClearIfNone(marks: seq<bool>)
    requires Count(marks) == 0
    ensures ClearFrom(marks, 0)
  {
    if marks != [] {
      ClearIfNone(marks[1..]);
    }
  }

  lemma {:induction false} FirstMarksCount(hits: seq<bool>, k: nat)
    ensures Count(FirstMarks(hits, k)) == if Count(hits) < k then Count(hits) else k
  {
    if hits != [] {
      FirstMarksCount(hits[1..], if hits[0] && k > 0 then k - 1 else k);
    }
  }

  /** The pass may stop early once k elements are out. */
  lemma PassEnd<T>(xs: seq<T>, hits: seq<bool>, k: nat, i: nat, now: seq<T>, out: seq<T>)
    requires |xs| == |hits| && PassedTo(xs, FirstMarks(hits, k), i, now, out)
    requires i == |xs| || |out| == k
    ensures now == Kept(xs, FirstMarks(hits, k)) && out == Taken(xs, FirstMarks(hits, k))
  {
    var marks := FirstMarks(hits, k);
    TakenCount(xs[..i], marks[..i]);
    SplitKept(xs, marks, i);
    SplitTaken(xs, marks, i);
    SplitCount(marks, i);
    FirstMarksCount(hits, k);
    ClearIfNone(marks[i..]);
    AllClear(xs[i..], marks[i..]);
  }

  lemma {:induction false} FirstMarksAll(hits: seq<bool>, k: nat)
    requires Count(hits) <= k
    ensures FirstMarks(hits, k) == hits
  {
    if hits != [] {
      FirstMarksAll(hits[1..], if hits[0] && k > 0 then k - 1 else k);
    }
  }

  lemma {:induction false} TakenIn<T>(xs: seq<T>, marks: seq<bool>, x: T)
    requires |xs| == |marks|
    ensures x in Taken(xs, marks) <==> exists i :: 0 <= i < |xs| && marks[i] && xs[i] == x
  {
    if xs != [] {
      TakenIn(xs[1..], marks[1..], x);
      var rest := Taken(xs[1..], marks[1..]);
      assert x in Taken(xs, marks) <==> (marks[0] && x == xs[0]) || x in rest;
      if i :| 0 <= i < |xs| && marks[i] && xs[i] == x && i > 0 {
        assert marks[1..][i - 1] && xs[1..][i - 1] == x;
      }
      if j :| 0 <= j < |xs| - 1 && marks[1..][j] && xs[1..][j] == x {
        assert marks[j + 1] && xs[j + 1] == x;
      }
    }
  }

  /** The marks are those of the first k hits, or of all if there are fewer. */
  ghost predicate FirstOf(hits: seq<bool>, marks: seq<bool>, k: nat) {
    && |marks| == |hits| && Count(marks) == (if Count(hits) < k then Count(hits) else k)
    && (forall i | 0 <= i < |hits| && marks[i] :: hits[i])
    && forall i, j | 0 <= i < j < |hits| && hits[i] && marks[j] :: marks[i]
  }

  lemma FirstMarksAreFirst(hits: seq<bool>, k: nat)
    ensures FirstOf(hits, FirstMarks(hits, k), k)
  {
    var marks := FirstMarks(hits, k);
    FirstMarksCount(hits, k);
    forall i | 0 <= i < |hits| && marks[i] ensures hits[i] {
      FirstMarksAt(hits, k, i);
    }
    forall i, j | 0 <= i < j < |hits| && hits[i] && marks[j] ensures marks[i] {
      FirstMarksAt(hits, k, i);
      FirstMarksAt(hits, k, j);
      SplitCount(marks[..j], i);
      assert marks[..j][..i] == marks[..i];
    }
  }
}
