/** The three JavaScript array operations the pointer handlers rely on
    (`indexOf`, `splice(k, 1)` and `push`), over immutable sequences. */
module Seqs {

  /** No value occurs twice in `s`. */
  predicate Distinct<T(==)>(s: seq<T>) {
    forall i, j :: 0 <= i < j < |s| ==> s[i] != s[j]
  }

  /** `Array.prototype.indexOf`: the first index holding `x`, or -1 when there is none. */
  function IndexOf<T(==)>(s: seq<T>, x: T): (r: int)
    ensures -1 <= r < |s|
    ensures r == -1 <==> x !in s
    ensures 0 <= r ==> s[r] == x && forall j :: 0 <= j < r ==> s[j] != x
  {
    if |s| == 0 then -1
    else if s[0] == x then 0
    else
      assert s == [s[0]] + s[1..];
      var k := IndexOf(s[1..], x);
      if k == -1 then -1 else k + 1
  }

  /** In a sequence without repetitions, `indexOf` of the element at `i` is `i`. */
  lemma IndexOfDistinct<T>(s: seq<T>, i: nat)
    requires Distinct(s)
    requires i < |s|
    ensures IndexOf(s, s[i]) == i
  {
  }

  /** `s.push(s.splice(k, 1)[0])`: the element at `k` is taken out of its slot
      and re-appended at the end; everything before `k` stays where it was and
      everything after it moves down one slot. */
  function MoveToEnd<T>(s: seq<T>, k: nat): (r: seq<T>)
    requires k < |s|
    ensures |r| == |s|
    ensures r[|r| - 1] == s[k]
    ensures forall j :: 0 <= j < k ==> r[j] == s[j]
    ensures forall j :: k <= j < |s| - 1 ==> r[j] == s[j + 1]
  {
    s[..k] + s[k + 1..] + [s[k]]
  }

  /** Moving an element to the end only reorders: the multiset of values is kept. */
  lemma MoveToEndPermutes<T>(s: seq<T>, k: nat)
    requires k < |s|
    ensures multiset(MoveToEnd(s, k)) == multiset(s)
  {
    assert s == s[..k] + [s[k]] + s[k + 1..];
  }

  /** Moving an element to the end keeps a sequence free of repetitions. */
  lemma MoveToEndDistinct<T>(s: seq<T>, k: nat)
    requires k < |s|
    requires Distinct(s)
    ensures Distinct(MoveToEnd(s, k))
  {
    var r := MoveToEnd(s, k);
    forall i, j | 0 <= i < j < |r|
      ensures r[i] != r[j]
    {
      var i' := if i < k then i else i + 1;
      var j' := if j == |r| - 1 then k else if j < k then j else j + 1;
      assert r[i] == s[i'] && r[j] == s[j'] && i' != j';
    }
  }

  /** Moving the element that is already last changes nothing. */
  lemma MoveLastToEnd<T>(s: seq<T>)
    requires |s| > 0
    ensures MoveToEnd(s, |s| - 1) == s
  {
  }

  /** Removing the moved element from the result leaves the others in their old relative order. */
  lemma MoveToEndKeepsOthersInOrder<T>(s: seq<T>, k: nat)
    requires k < |s|
    ensures MoveToEnd(s, k)[..|s| - 1] == s[..k] + s[k + 1..]
  {
  }

  /** A value occurring in a sequence without repetitions occurs exactly once. */
  lemma {:induction false} DistinctOccursOnce<T>(s: seq<T>, x: T)
    requires Distinct(s)
    requires x in s
    ensures multiset(s)[x] == 1
  {
    assert s == [s[0]] + s[1..];
    if s[0] == x {
      forall j | 0 <= j < |s[1..]|
        ensures s[1..][j] != x
      {
        assert s[1..][j] == s[j + 1];
      }
    } else {
      DistinctOccursOnce(s[1..], x);
    }
  }
}
