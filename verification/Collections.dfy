/** What the models share: an optional value and the number of elements with a property. */
module Collections {
  datatype Option<+T> = None | Some(value: T)

  ghost function Count<T(!new)>(ts: seq<T>, p: T -> bool): (c: nat)
    ensures c <= |ts|
  {
    if ts == [] then 0 else (if p(ts[0]) then 1 else 0) + Count(ts[1..], p)
  }

  lemma {:induction false} CountUpdate<T(!new)>(ts: seq<T>, p: T -> bool, i: nat, t: T)
    requires i < |ts|
    ensures Count(ts[i := t], p) == Count(ts, p) - (if p(ts[i]) then 1 else 0) + (if p(t) then 1 else 0)
  {
    if i == 0 {
      assert ts[i := t][1..] == ts[1..];
    } else {
      assert ts[i := t][1..] == ts[1..][i - 1 := t];
      CountUpdate(ts[1..], p, i - 1, t);
    }
  }

  lemma {:induction false} CountAll<T(!new)>(ts: seq<T>, p: T -> bool)
    ensures Count(ts, p) == |ts| <==> forall i :: 0 <= i < |ts| ==> p(ts[i])
    ensures Count(ts, p) == 0 <==> forall i :: 0 <= i < |ts| ==> !p(ts[i])
  {
    if ts != [] {
      CountAll(ts[1..], p);
      assert forall i :: 0 <= i < |ts[1..]| ==> ts[1..][i] == ts[i + 1];
      assert forall i :: 0 < i < |ts| ==> ts[i] == ts[1..][i - 1];
    }
  }
}
