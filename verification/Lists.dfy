/** Taking one element out of a list. */
module Lists {
  lemma TakenOut<T>(list: seq<T>, i: nat)
    requires i < |list|
    ensures var w := list[..i] + list[i + 1..];
            && (forall j :: 0 <= j < |w| ==> w[j] == list[if j < i then j else j + 1])
            && forall x :: x in list && x != list[i] ==> x in w
  {
    var w := list[..i] + list[i + 1..];
    forall x | x in list && x != list[i] ensures x in w {
      var j :| 0 <= j < |list| && list[j] == x;
      assert w[if j < i then j else j - 1] == x;
    }
  }
}
