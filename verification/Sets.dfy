/** Finite sets: choosing an element, images and their sizes. */
module Sets {

  lemma NonEmpty<T>(s: set<T>)
    requires s != {}
    ensures exists x :: x in s
  {
  }

  ghost function Pick<T>(s: set<T>): (x: T)
    requires s != {}
    ensures x in s
  {
    NonEmpty(s);
    var x :| x in s;
    x
  }

  lemma SubsetSameSize<T>(s: set<T>, t: set<T>)
    requires s <= t && |s| == |t|
    ensures s == t
  {
    assert t == s + (t - s);
  }

  lemma SubsetSize<T>(s: set<T>, t: set<T>)
    requires s <= t
    ensures |s| <= |t|
  {
    assert t == s + (t - s);
  }

  ghost function Image(f: int -> int, s: set<int>): set<int> {
    set x | x in s :: f(x)
  }

  ghost predicate InjectiveOn(f: int -> int, s: set<int>) {
    forall x, y :: x in s && y in s && f(x) == f(y) ==> x == y
  }

  lemma ImageSplit(f: int -> int, s: set<int>, x: int)
    requires InjectiveOn(f, s) && x in s
    ensures f(x) in Image(f, s)
    ensures Image(f, s) - {f(x)} == Image(f, s - {x})
    ensures |Image(f, s)| == |Image(f, s - {x})| + 1
  {
    assert f(x) in Image(f, s);
  }

  lemma {:induction false} ImageSize(f: int -> int, s: set<int>)
    requires InjectiveOn(f, s)
    ensures |Image(f, s)| == |s|
    decreases s
  {
    if s == {} {
      assert Image(f, s) == {};
    } else {
      var x := Pick(s);
      ImageSplit(f, s, x);
      ImageSize(f, s - {x});
    }
  }
}
