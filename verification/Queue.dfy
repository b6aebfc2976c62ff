/** The ingestion queue: a binary heap of logs kept in a growable slice. */
module Queue {
  import opened Chain

  function Parent(i: int): int
    requires i >= 1
  {
    (i - 1) / 2
  }

  /** Element i is not smaller than its parent. */
  ghost predicate ParentOk(s: seq<Log>, i: int)
    requires 0 <= i < |s|
  {
    i >= 1 ==> !s[i].Less(s[Parent(i)])
  }

  /** Heap order of the first n elements. */
  ghost predicate HeapOrdered(s: seq<Log>, n: int)
    requires n <= |s|
  {
    forall i {:trigger ParentOk(s, i)} :: 0 <= i < n ==> ParentOk(s, i)
  }

  /** Child c of element i would be in order below i's parent. */
  ghost predicate Skips(s: seq<Log>, c: int, i: int)
    requires 0 <= i < c < |s|
  {
    i >= 1 && Parent(c) == i ==> !s[c].Less(s[Parent(i)])
  }

  ghost predicate GrandparentOk(s: seq<Log>, n: int, i: int)
    requires 0 <= i && n <= |s|
  {
    forall c {:trigger Skips(s, c, i)} :: i < c < n ==> Skips(s, c, i)
  }

  /** In heap order but for element i being too small for its place. */
  ghost predicate OrderedButUp(s: seq<Log>, n: int, i: int)
    requires 0 <= i && n <= |s|
  {
    && (forall c {:trigger ParentOk(s, c)} :: 0 <= c < n && c != i ==> ParentOk(s, c))
    && GrandparentOk(s, n, i)
  }

  /** In heap order but for element i being too large for its place. */
  ghost predicate OrderedButDown(s: seq<Log>, n: int, i: int)
    requires 0 <= i && n <= |s|
  {
    && (forall c {:trigger ParentOk(s, c)} :: 0 <= c < n && (c >= 1 ==> Parent(c) != i) ==> ParentOk(s, c))
    && GrandparentOk(s, n, i)
  }

  function Swapped(s: seq<Log>, i: int, j: int): seq<Log>
    requires 0 <= i < |s| && 0 <= j < |s|
  {
    s[i := s[j]][j := s[i]]
  }

  lemma SwapKeepsContents(s: seq<Log>, n: nat, i: int, j: int)
    requires 0 <= i < n <= |s| && 0 <= j < n
    ensures |Swapped(s, i, j)| == |s| && multiset(Swapped(s, i, j)) == multiset(s)
    ensures Swapped(s, i, j)[n..] == s[n..]
  {
  }

  /** The order on logs, negated, is transitive. */
  lemma NotLessTransitive(a: Log, b: Log, c: Log)
    requires !b.Less(a) && !c.Less(b)
    ensures !c.Less(a)
  {
  }

  lemma UpStep(s: seq<Log>, n: int, j: int)
    requires 1 <= j < n <= |s| && OrderedButUp(s, n, j) && s[j].Less(s[Parent(j)])
    ensures OrderedButUp(Swapped(s, Parent(j), j), n, Parent(j))
  {
    var p := Parent(j);
    var u := Swapped(s, p, j);
    assert ParentOk(s, p);
    forall c | 0 <= c < n && c != p ensures ParentOk(u, c) {
      if c >= 1 && c != j {
        assert ParentOk(s, c) && (j < c ==> Skips(s, c, j));
      }
    }
    forall c | p < c < n ensures Skips(u, c, p) {
      if c != j { assert ParentOk(s, c); }
    }
  }

  lemma DownStep(s: seq<Log>, n: int, i: int, j: int)
    requires 0 <= i < n <= |s| && OrderedButDown(s, n, i)
    requires SmallestChild(s, n, i, j) && s[j].Less(s[i])
    ensures OrderedButDown(Swapped(s, i, j), n, j)
  {
    var u := Swapped(s, i, j);
    assert Skips(s, j, i);
    forall c | 0 <= c < n && (c >= 1 ==> Parent(c) != j) ensures ParentOk(u, c) {
      if c >= 1 && Parent(c) != i { assert ParentOk(s, c); }
    }
    forall c | j < c < n ensures Skips(u, c, j) {
      if Parent(c) == j { assert ParentOk(s, c); }
    }
  }

  /** No child of element i is smaller. */
  ghost predicate Settled(s: seq<Log>, n: int, i: int)
    requires 0 <= i && n <= |s|
  {
    forall c :: 1 <= c < n && Parent(c) == i ==> !s[c].Less(s[i])
  }

  lemma NoChildren(s: seq<Log>, n: int, i: int)
    requires 0 <= i && n <= |s| && 2 * i + 1 >= n
    ensures Settled(s, n, i)
  {
  }

  lemma DownEnds(s: seq<Log>, n: int, i: int)
    requires 0 <= i && n <= |s| && OrderedButDown(s, n, i) && Settled(s, n, i)
    ensures HeapOrdered(s, n)
  {
    forall c | 0 <= c < n ensures ParentOk(s, c) {
    }
  }

  /** j is a smallest child of element i. */
  ghost predicate SmallestChild(s: seq<Log>, n: int, i: int, j: int)
    requires 0 <= i && n <= |s|
  {
    && i < j < n && Parent(j) == i
    && forall c :: 1 <= c < n && Parent(c) == i ==> !s[c].Less(s[j])
  }

  lemma ChildChosen(s: seq<Log>, n: int, i: int, j: int)
    requires 0 <= i && 2 * i + 1 < n <= |s|
    requires j == if 2 * i + 2 < n && s[2 * i + 2].Less(s[2 * i + 1]) then 2 * i + 2 else 2 * i + 1
    ensures SmallestChild(s, n, i, j)
    ensures !s[j].Less(s[i]) ==> Settled(s, n, i)
  {
    forall c | 1 <= c < n && Parent(c) == i ensures !s[c].Less(s[j]) {
      assert c == 2 * i + 1 || c == 2 * i + 2;
    }
    if !s[j].Less(s[i]) {
      forall c | 1 <= c < n && Parent(c) == i ensures !s[c].Less(s[i]) {
        NotLessTransitive(s[i], s[j], s[c]);
      }
    }
  }

  lemma AppendedIsOrderedButUp(s: seq<Log>, x: Log)
    requires HeapOrdered(s, |s|)
    ensures OrderedButUp(s + [x], |s| + 1, |s|)
  {
    forall c | 0 <= c < |s| ensures ParentOk(s + [x], c) {
      assert ParentOk(s, c);
    }
  }

  lemma PrefixIsHeap(s: seq<Log>, n: nat)
    requires n <= |s| && HeapOrdered(s, n)
    ensures HeapOrdered(s[..n], n)
  {
    forall c | 0 <= c < n ensures ParentOk(s[..n], c) {
      assert ParentOk(s, c);
    }
  }

  lemma UpEnds(s: seq<Log>, j: int)
    requires 0 <= j < |s| && OrderedButUp(s, |s|, j)
    requires j >= 1 ==> !s[j].Less(s[Parent(j)])
    ensures HeapOrdered(s, |s|)
  {
    assert ParentOk(s, j);
  }

  /** The first element of a heap is a minimum. */
  lemma {:induction false} RootIsMinimal(s: seq<Log>, i: int)
    requires 0 <= i < |s| && HeapOrdered(s, |s|)
    ensures !s[i].Less(s[0])
  {
    if i >= 1 {
      RootIsMinimal(s, Parent(i));
      assert ParentOk(s, i);
      NotLessTransitive(s[0], s[Parent(i)], s[i]);
    }
  }

  class EventQueue {
    var items: seq<Log>

    ghost predicate Valid()
      reads this
    {
      HeapOrdered(items, |items|)
    }

    /** What is in the queue, duplicates included. */
    ghost function Contents(): multiset<Log>
      reads this
    {
      multiset(items)
    }

    constructor ()
      ensures Valid() && Contents() == multiset{}
    {
      items := [];
    }

    method Len() returns (n: nat)
      ensures n == |items|
    {
      n := |items|;
    }

    method Swap(i: nat, j: nat)
      requires i < |items| && j < |items|
      modifies this
      ensures items == Swapped(old(items), i, j)
    {
      items := items[i := items[j]][j := items[i]];
    }

    /** Moves element j towards the root until its parent is not larger. */
    method Up(j0: nat)
      requires j0 < |items| && OrderedButUp(items, |items|, j0)
      modifies this
      ensures Valid() && |items| == |old(items)| && multiset(items) == multiset(old(items))
    {
      hide OrderedButUp, Swapped, HeapOrdered;
      var j := j0;
      while j >= 1 && items[j].Less(items[Parent(j)])
        invariant 0 <= j < |items| == |old(items)|
        invariant OrderedButUp(items, |items|, j)
        invariant multiset(items) == multiset(old(items))
        decreases j
      {
        UpStep(items, |items|, j);
        SwapKeepsContents(items, |items|, Parent(j), j);
        Swap(Parent(j), j);
        j := Parent(j);
      }
      UpEnds(items, j);
    }

    /** Moves the first element away from the root, inside the first n elements, until no child is smaller. */
    method Down(n: nat)
      requires n <= |items| && OrderedButDown(items, n, 0)
      modifies this
      ensures |items| == |old(items)| && HeapOrdered(items, n)
      ensures items[n..] == old(items)[n..] && multiset(items) == multiset(old(items))
    {
      hide OrderedButDown, Swapped, HeapOrdered, Settled;
      var i := 0;
      while true
        invariant 0 <= i && n <= |items| == |old(items)|
        invariant OrderedButDown(items, n, i)
        invariant items[n..] == old(items)[n..] && multiset(items) == multiset(old(items))
        decreases n - i
      {
        var left := 2 * i + 1;
        if left >= n {
          NoChildren(items, n, i);
          break;
        }
        var j := left;
        if left + 1 < n && items[left + 1].Less(items[left]) {
          j := left + 1;
        }
        ChildChosen(items, n, i, j);
        if !items[j].Less(items[i]) {
          break;
        }
        DownStep(items, n, i, j);
        SwapKeepsContents(items, n, i, j);
        Swap(i, j);
        i := j;
      }
      DownEnds(items, n, i);
    }

    method Push(x: Log)
      modifies this
      ensures items == old(items) + [x]
    {
      items := items + [x];
    }

    method Pop() returns (x: Log)
      requires items != []
      modifies this
      ensures items == old(items)[..|old(items)| - 1] && x == old(items)[|old(items)| - 1]
    {
      x := items[|items| - 1];
      items := items[..|items| - 1];
    }

    method Insert(event: Log)
      requires Valid()
      modifies this
      ensures Valid() && Contents() == old(Contents()) + multiset{event}
    {
      hide HeapOrdered, OrderedButUp;
      AppendedIsOrderedButUp(items, event);
      Push(event);
      Up(|items| - 1);
    }

    /** Takes out a smallest log, if there is one. */
    method Next() returns (r: Option<Log>)
      requires Valid()
      modifies this
      ensures Valid()
      ensures r.None? <==> old(Contents()) == multiset{}
      ensures r.None? ==> Contents() == multiset{}
      ensures r.Some? ==>
        && r.value in old(Contents())
        && Contents() == old(Contents()) - multiset{r.value}
        && forall x :: x in old(Contents()) ==> !x.Less(r.value)
    {
      hide HeapOrdered, OrderedButDown, Swapped;
      var length := Len();
      if length == 0 {
        return None;
      }
      ghost var before := items;
      forall i | 0 <= i < |before| ensures !before[i].Less(before[0]) {
        RootIsMinimal(before, i);
      }
      var n := length - 1;
      SwapKeepsContents(before, length, 0, n);
      Swap(0, n);
      RootSwapped(before, n);
      Down(n);
      ghost var sifted := items;
      PrefixIsHeap(sifted, n);
      assert sifted[n] == sifted[n..][0] == before[0];
      var ev := Pop();
      assert sifted == sifted[..n] + [ev];
      return Some(ev);
    }

    method Clear()
      modifies this
      ensures Valid() && Contents() == multiset{}
    {
      items := [];
    }
  }

  lemma RootSwapped(s: seq<Log>, n: int)
    requires HeapOrdered(s, |s|) && n == |s| - 1 >= 0
    ensures OrderedButDown(Swapped(s, 0, n), n, 0) && Swapped(s, 0, n)[n..] == [s[0]]
  {
    var u := Swapped(s, 0, n);
    forall c | 0 <= c < n && (c >= 1 ==> Parent(c) != 0) ensures ParentOk(u, c) {
      assert ParentOk(s, c);
    }
    forall c | 0 < c < n ensures Skips(u, c, 0) {
    }
  }

  /** The logs that Next gives one after the other, and what they leave in the queue. */
  ghost predicate Taken(contents: multiset<Log>, out: seq<Log>, rest: multiset<Log>)
    decreases |out|
  {
    if out == [] then contents == rest
    else
      && out[0] in contents
      && (forall x :: x in contents ==> !x.Less(out[0]))
      && Taken(contents - multiset{out[0]}, out[1..], rest)
  }

  /** Whatever is taken comes in (block, log index) order, duplicates included, and before everything that is left. */
  lemma {:induction false} TakenInOrder(contents: multiset<Log>, out: seq<Log>, rest: multiset<Log>)
    requires Taken(contents, out, rest)
    ensures multiset(out) + rest == contents
    ensures forall i, j :: 0 <= i < j < |out| ==> !out[j].Less(out[i])
    ensures forall x, i :: x in rest && 0 <= i < |out| ==> !x.Less(out[i])
    decreases |out|
  {
    if out != [] {
      TakenInOrder(contents - multiset{out[0]}, out[1..], rest);
      TakenAsAWhole(contents, out, rest);
      SortedCons(contents, out, rest);
    }
  }

  lemma TakenAsAWhole(contents: multiset<Log>, out: seq<Log>, rest: multiset<Log>)
    requires out != [] && out[0] in contents && multiset(out[1..]) + rest == contents - multiset{out[0]}
    ensures multiset(out) + rest == contents
  {
    assert out == [out[0]] + out[1..];
    assert multiset(out) == multiset{out[0]} + multiset(out[1..]);
    assert multiset{out[0]} + (contents - multiset{out[0]}) == contents;
  }

  lemma SortedCons(contents: multiset<Log>, out: seq<Log>, rest: multiset<Log>)
    requires out != [] && multiset(out) + rest == contents && forall x :: x in contents ==> !x.Less(out[0])
    requires forall i, j :: 0 <= i < j < |out| - 1 ==> !out[1..][j].Less(out[1..][i])
    requires forall x, i :: x in rest && 0 <= i < |out| - 1 ==> !x.Less(out[1..][i])
    ensures forall i, j :: 0 <= i < j < |out| ==> !out[j].Less(out[i])
    ensures forall x, i :: x in rest && 0 <= i < |out| ==> !x.Less(out[i])
  {
    forall i, j | 0 <= i < j < |out| ensures !out[j].Less(out[i]) {
      if i == 0 {
        assert out[j] in multiset(out);
      } else {
        assert out[1..][j - 1] == out[j] && out[1..][i - 1] == out[i];
      }
    }
    forall x, i | x in rest && 0 <= i < |out| ensures !x.Less(out[i]) {
      assert i > 0 ==> out[1..][i - 1] == out[i];
    }
  }

  /** One more log is taken. */
  lemma {:induction false} TakenSnoc(contents: multiset<Log>, out: seq<Log>, rest: multiset<Log>, x: Log)
    requires Taken(contents, out, rest) && x in rest && forall y :: y in rest ==> !y.Less(x)
    ensures Taken(contents, out + [x], rest - multiset{x})
    decreases |out|
  {
    if out == [] {
      assert ([x])[1..] == [];
    } else {
      TakenSnoc(contents - multiset{out[0]}, out[1..], rest, x);
      assert (out + [x])[1..] == out[1..] + [x];
    }
  }
}
