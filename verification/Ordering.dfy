/** Sorting a finite set of integers. */
module Ordering {
  method Pick<T>(s: set<T>) returns (x: T)
    requires s != {}
    ensures x in s
  {
    x :| x in s;
  }

  method Sorted(s: set<int>) returns (xs: seq<int>)
    ensures forall x :: x in xs <==> x in s
    ensures forall i, j :: 0 <= i < j < |xs| ==> xs[i] < xs[j]
  {
    xs := [];
    var rest := s;
    while rest != {}
      invariant forall x :: x in s <==> x in xs || x in rest
      invariant forall i, j :: 0 <= i < j < |xs| ==> xs[i] < xs[j]
      invariant forall x, y :: x in xs && y in rest ==> x < y
    {
      var least := Pick(rest);
      var others := rest - {least};
      while others != {}
        invariant least in rest && others <= rest
        invariant forall y :: y in rest && y !in others ==> least <= y
      {
        var y := Pick(others);
        if y < least { least := y; }
        others := others - {y};
      }
      ghost var before := xs;
      xs := xs + [least];
      rest := rest - {least};
      forall i, j | 0 <= i < j < |xs| ensures xs[i] < xs[j] {
        assert before[i] in before;
      }
    }
  }
}
