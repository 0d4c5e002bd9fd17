/**
  Facts about sequences that several modules share.
*/
module Seqs {

  function Without<T>(s: seq<T>, i: nat): (r: seq<T>)
    requires i < |s|
    ensures |r| == |s| - 1
    ensures forall j :: 0 <= j < |r| ==> r[j] == s[if j < i then j else j + 1]
  {
    s[..i] + s[i + 1..]
  }

  lemma Concat3<T>(kept: seq<T>, node: T, rest: seq<T>)
    ensures kept + ([node] + rest) == kept + [node] + rest
  {
  }

  lemma TakeOne<T>(s: seq<T>, k: nat)
    requires k < |s|
    ensures s[..k + 1] == s[..k] + [s[k]]
  {
  }

  lemma DropOne<T>(s: seq<T>, k: nat)
    requires k < |s|
    ensures s[k..] == [s[k]] + s[k + 1..]
    ensures k + 1 < |s| ==> s[k + 1..][0] == s[k + 1]
  {
  }

  lemma SplitAt<T>(s: seq<T>, i: nat)
    requires i < |s|
    ensures s == s[..i] + ([s[i]] + s[i + 1..])
    ensures Without(s, i) == s[..i] + s[i + 1..]
  {
  }

  lemma WithoutMiddle<T>(head: seq<T>, x: T, tail: seq<T>)
    ensures var s := head + ([x] + tail);
            s[|head|] == x && Without(s, |head|) == head + tail
    ensures head + ([] + tail) == head + tail
  {
  }

  /** Taking out one of several distinct elements takes out just that. */
  lemma WithoutElements<T>(s: seq<T>, i: nat)
    requires i < |s| && forall j, k :: 0 <= j < k < |s| ==> s[j] != s[k]
    ensures forall x :: x in Without(s, i) <==> x in s && x != s[i]
  {
    forall x | x in s && x != s[i]
      ensures x in Without(s, i)
    {
      var j :| 0 <= j < |s| && s[j] == x;
      assert Without(s, i)[if j < i then j else j - 1] == x;
    }
  }
}
