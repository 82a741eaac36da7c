/** Types every other module uses. */
module Common {

  /** An unsigned 8-bit value (`uint8_t`, or one element of a Python `bytes`). */
  type Byte = x: int | 0 <= x < 256

  datatype Option<+T> = None | Some(value: T)

  function Pow2(n: nat): (r: nat)
    ensures r >= 1
  {
    if n == 0 then 1 else 2 * Pow2(n - 1)
  }

  function MaxReal(a: real, b: real): real {
    if a >= b then a else b
  }

  function MinReal(a: real, b: real): real {
    if a <= b then a else b
  }

  /** `r` is what a comprehension keeps of `s`: exactly the elements at the positions where `p` holds,
    * each once and in their order.
    */
  ghost predicate IsSelection<T(!new)>(r: seq<T>, s: seq<T>, p: T -> bool) {
    exists at: seq<nat> :: SelectedAt(r, s, p, at)
  }

  ghost predicate SelectedAt<T(!new)>(r: seq<T>, s: seq<T>, p: T -> bool, at: seq<nat>) {
    && |at| == |r|
    && (forall i, j :: 0 <= i < j < |at| ==> at[i] < at[j])
    && (forall k: nat :: k in at <==> k < |s| && p(s[k]))
    && (forall i :: 0 <= i < |at| ==> at[i] < |s| && r[i] == s[at[i]])
  }

  lemma NothingSelected<T(!new)>(p: T -> bool)
    ensures IsSelection([], [], p)
  {
    assert SelectedAt([], [], p, []);
  }

  function Shifted(at: seq<nat>): (r: seq<nat>)
    ensures |r| == |at| && forall i :: 0 <= i < |at| ==> r[i] == at[i] + 1
  {
    seq(|at|, i requires 0 <= i < |at| => at[i] + 1)
  }

  lemma ShiftedMembers(at: seq<nat>, k: nat)
    ensures k in Shifted(at) <==> k > 0 && k - 1 in at
  {
    if k in Shifted(at) {
      var i :| 0 <= i < |at| && Shifted(at)[i] == k;
      assert at[i] in at;
    }
    if k > 0 && k - 1 in at {
      var i :| 0 <= i < |at| && at[i] == k - 1;
      assert Shifted(at)[i] == k;
    }
  }

  function WithFirst(at: seq<nat>): (r: seq<nat>)
    ensures |r| == |at| + 1 && r[0] == 0 && forall i :: 0 < i < |r| ==> r[i] == at[i - 1] + 1
  {
    [0] + Shifted(at)
  }

  lemma WithFirstMembers(at: seq<nat>, k: nat)
    ensures k in WithFirst(at) <==> k == 0 || k - 1 in at
  {
    ShiftedMembers(at, k);
  }

  lemma WithFirstAscends(at: seq<nat>)
    requires forall i, j :: 0 <= i < j < |at| ==> at[i] < at[j]
    ensures forall i, j :: 0 <= i < j < |WithFirst(at)| ==> WithFirst(at)[i] < WithFirst(at)[j]
  {
  }

  lemma TakenPosition<T(!new)>(r: seq<T>, s: seq<T>, p: T -> bool, x: T, at: seq<nat>, k: nat)
    requires SelectedAt(r, s, p, at) && p(x)
    ensures k in WithFirst(at) <==> k < |[x] + s| && p(([x] + s)[k])
  {
    WithFirstMembers(at, k);
    if k > 0 {
      assert k - 1 in at <==> k - 1 < |s| && p(s[k - 1]);
    }
  }

  lemma TakenElement<T(!new)>(r: seq<T>, s: seq<T>, p: T -> bool, x: T, at: seq<nat>, i: nat)
    requires SelectedAt(r, s, p, at) && i < |WithFirst(at)|
    ensures |WithFirst(at)| == |[x] + r|
    ensures WithFirst(at)[i] < |[x] + s| && ([x] + r)[i] == ([x] + s)[WithFirst(at)[i]]
  {
    if i > 0 {
      assert at[i - 1] < |s| && r[i - 1] == s[at[i - 1]];
    }
  }

  lemma TakeFirst<T(!new)>(r: seq<T>, s: seq<T>, p: T -> bool, x: T)
    requires IsSelection(r, s, p) && p(x)
    ensures IsSelection([x] + r, [x] + s, p)
  {
    var at :| SelectedAt(r, s, p, at);
    var at', r', s' := WithFirst(at), [x] + r, [x] + s;
    WithFirstAscends(at);
    forall k: nat
      ensures k in at' <==> k < |s'| && p(s'[k])
    {
      TakenPosition(r, s, p, x, at, k);
    }
    forall i: nat | i < |at'|
      ensures at'[i] < |s'| && r'[i] == s'[at'[i]]
    {
      TakenElement(r, s, p, x, at, i);
    }
    assert SelectedAt(r', s', p, at');
  }

  lemma SkippedPosition<T(!new)>(r: seq<T>, s: seq<T>, p: T -> bool, x: T, at: seq<nat>, k: nat)
    requires SelectedAt(r, s, p, at) && !p(x)
    ensures k in Shifted(at) <==> k < |[x] + s| && p(([x] + s)[k])
  {
    ShiftedMembers(at, k);
    if k > 0 {
      assert k - 1 in at <==> k - 1 < |s| && p(s[k - 1]);
    }
  }

  lemma SkippedElement<T(!new)>(r: seq<T>, s: seq<T>, p: T -> bool, x: T, at: seq<nat>, i: nat)
    requires SelectedAt(r, s, p, at) && i < |at|
    ensures Shifted(at)[i] < |[x] + s| && r[i] == ([x] + s)[Shifted(at)[i]]
  {
    assert at[i] < |s| && r[i] == s[at[i]];
  }

  lemma ShiftedAscends(at: seq<nat>)
    requires forall i, j :: 0 <= i < j < |at| ==> at[i] < at[j]
    ensures forall i, j :: 0 <= i < j < |Shifted(at)| ==> Shifted(at)[i] < Shifted(at)[j]
  {
  }

  lemma SkipFirst<T(!new)>(r: seq<T>, s: seq<T>, p: T -> bool, x: T)
    requires IsSelection(r, s, p) && !p(x)
    ensures IsSelection(r, [x] + s, p)
  {
    var at :| SelectedAt(r, s, p, at);
    var at', s' := Shifted(at), [x] + s;
    forall k: nat
      ensures k in at' <==> k < |s'| && p(s'[k])
    {
      SkippedPosition(r, s, p, x, at, k);
    }
    forall i: nat | i < |at'|
      ensures at'[i] < |s'| && r[i] == s'[at'[i]]
    {
      SkippedElement(r, s, p, x, at, i);
    }
    ShiftedAscends(at);
    assert SelectedAt(r, s', p, at');
  }
}
