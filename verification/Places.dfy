/** The places of a list that are marked, in order. */
module Places {

  function Marked(marks: seq<bool>, n: nat): (at: seq<nat>)
    requires n <= |marks|
    ensures forall k :: 0 <= k < |at| ==> at[k] < n
  {
    if n == 0 then [] else Marked(marks, n - 1) + if marks[n - 1] then [n - 1] else []
  }

  lemma {:induction false} MarkedSpec(marks: seq<bool>, n: nat)
    requires n <= |marks|
    ensures var at := Marked(marks, n);
            && (forall k :: 0 <= k < |at| ==> marks[at[k]])
            && (forall j, k :: 0 <= j < k < |at| ==> at[j] < at[k])
            && (forall i :: 0 <= i < n && marks[i] ==> i in at)
  {
    if n > 0 {
      MarkedSpec(marks, n - 1);
    }
  }
}
