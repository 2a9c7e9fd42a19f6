/** Small things that several modules use. */
module Collections {

  datatype Option<+T> = None | Some(value: T)

  function Min(a: nat, b: nat): nat {
    if a < b then a else b
  }

  /** The first position of an element in a list, or the length of the list. */
  function IndexOf<T(==)>(l: seq<T>, x: T): (i: nat)
    ensures i <= |l|
    ensures i < |l| ==> l[i] == x
    ensures i == |l| <==> x !in l
  {
    if l == [] then 0 else if l[0] == x then 0 else 1 + IndexOf(l[1..], x)
  }

  ghost predicate Distinct<T>(l: seq<T>) {
    forall i, j :: 0 <= i < j < |l| ==> l[i] != l[j]
  }

  lemma DistinctSnoc<T>(l: seq<T>, x: T)
    ensures Distinct(l + [x]) <==> Distinct(l) && x !in l
  {
    var more := l + [x];
    assert forall i :: 0 <= i < |l| ==> more[i] == l[i];
    assert more[|l|] == x;
    if Distinct(more) {
      forall i, j | 0 <= i < j < |l| ensures l[i] != l[j] {
        assert more[i] != more[j];
      }
      forall i | 0 <= i < |l| ensures l[i] != x {
        assert more[i] != more[|l|];
      }
    }
  }
}
