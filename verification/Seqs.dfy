/** One element taken out of a sequence. */
module Seqs {

  function Erase<T>(s: seq<T>, i: nat): seq<T> {
    if i < |s| then s[..i] + s[i + 1..] else s
  }

  lemma EraseAt<T>(s: seq<T>, i: nat)
    requires i < |s|
    ensures |Erase(s, i)| == |s| - 1 && forall k :: 0 <= k < |s| - 1 ==> Erase(s, i)[k] == s[if k < i then k else k + 1]
  {
  }

  lemma EraseMember<T>(s: seq<T>, i: nat, x: T)
    requires i < |s|
    ensures x in Erase(s, i) <==> exists j :: 0 <= j < |s| && j != i && s[j] == x
  {
    if j :| 0 <= j < |s| && j != i && s[j] == x {
      assert Erase(s, i)[if j < i then j else j - 1] == x;
    }
    if x in Erase(s, i) {
      var k :| 0 <= k < |s| - 1 && Erase(s, i)[k] == x;
      assert s[if k < i then k else k + 1] == x;
    }
  }
}
