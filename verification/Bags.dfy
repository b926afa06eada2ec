// Sums of multisets, and how a sum moves when one of its terms changes.
module Bags {

  function Total<P>(ms: seq<multiset<P>>): multiset<P> {
    if ms == [] then multiset{} else Total(ms[..|ms| - 1]) + ms[|ms| - 1]
  }

  lemma Swap<P>(a: multiset<P>, x: multiset<P>, y: multiset<P>)
    ensures (a + x) + y == (a + y) + x
  {
  }

  lemma Regroup<P>(a: multiset<P>, b: multiset<P>, c: multiset<P>)
    ensures (a + b) + c == a + (b + c)
  {
  }

  lemma AddRight<P>(a: multiset<P>, b: multiset<P>, c: multiset<P>, d: multiset<P>, x: multiset<P>)
    requires a + b == c + d
    ensures a + (b + x) == c + (d + x)
  {
    Regroup(a, b, x);
    Regroup(c, d, x);
  }

  lemma AddBoth<P>(a: multiset<P>, b: multiset<P>, x: multiset<P>, y: multiset<P>, z: multiset<P>)
    requires a + x == b + y
    ensures (a + z) + x == (b + z) + y
  {
    Swap(a, z, x);
    Swap(b, z, y);
  }

  lemma Cancel<P>(a: multiset<P>, b: multiset<P>, x: multiset<P>)
    requires a + x == b + x
    ensures a == b
  {
    assert a == (a + x) - x;
    assert b == (b + x) - x;
  }

  lemma Exchange<P>(v: multiset<P>, w: multiset<P>, b: multiset<P>, b': multiset<P>, x: multiset<P>, y: multiset<P>)
    requires v + b == w + b' && b' + x == b + y
    ensures v + x == w + y
  {
    assert (v + x) + b == (v + b) + x == (w + b') + x == w + (b' + x) == w + (b + y) == (w + y) + b;
    Cancel(v + x, w + y, b);
  }

  lemma SameSize<P>(v: multiset<P>, w: multiset<P>, x: multiset<P>, y: multiset<P>)
    requires v + x == w + y && |x| == |y|
    ensures |v| == |w|
  {
    assert |v + x| == |v| + |x| && |w + y| == |w| + |y|;
  }

  /** total is split into sent and w; x leaves w for sent and y joins both w and the total. */
  lemma Compare<P>(total: multiset<P>, sent: multiset<P>, w: multiset<P>, w': multiset<P>, x: multiset<P>,
                   y: multiset<P>)
    requires total == sent + w && w' + x == w + y
    ensures total + y == sent + x + w'
  {
    assert sent + x + w' == sent + (w' + x);
    assert sent + (w + y) == total + y;
  }

  lemma TotalSplit<P>(ms: seq<multiset<P>>)
    requires ms != []
    ensures Total(ms) == Total(ms[..|ms| - 1]) + ms[|ms| - 1]
  {
  }

  lemma {:induction false} TotalUpdate<P>(ms: seq<multiset<P>>, i: nat, x: multiset<P>)
    requires i < |ms|
    ensures Total(ms[i := x]) + ms[i] == Total(ms) + x
  {
    var k := |ms| - 1;
    var ms' := ms[i := x];
    TotalSplit(ms);
    TotalSplit(ms');
    if i == k {
      assert ms'[..k] == ms[..k];
      Swap(Total(ms[..k]), x, ms[k]);
    } else {
      assert ms'[..k] == ms[..k][i := x];
      TotalUpdate(ms[..k], i, x);
      AddBoth(Total(ms'[..k]), Total(ms[..k]), ms[i], x, ms[k]);
    }
  }

  lemma {:induction false} TotalNone<P>(ms: seq<multiset<P>>)
    ensures Total(ms) == multiset{} <==> forall i | 0 <= i < |ms| :: ms[i] == multiset{}
  {
    if ms != [] {
      var k := |ms| - 1;
      TotalNone(ms[..k]);
      TotalSplit(ms);
      assert |Total(ms)| == |Total(ms[..k])| + |ms[k]|;
      assert forall i | 0 <= i < k :: ms[..k][i] == ms[i];
    }
  }

  lemma TotalLast<P>(ms: seq<multiset<P>>, x: multiset<P>)
    ensures Total(ms + [x]) == Total(ms) + x
  {
    assert (ms + [x])[..|ms|] == ms;
  }

  lemma {:induction false} TotalFirst<P>(x: multiset<P>, ms: seq<multiset<P>>)
    ensures Total([x] + ms) == x + Total(ms)
  {
    if ms != [] {
      var k := |ms| - 1;
      TotalFirst(x, ms[..k]);
      assert [x] + ms == ([x] + ms[..k]) + [ms[k]];
      TotalLast([x] + ms[..k], ms[k]);
      Regroup(x, Total(ms[..k]), ms[k]);
    }
  }
}
