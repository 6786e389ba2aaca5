/**
 * The two `MutableList` operations whose meaning the stores rely on:
 * `indexOf(element)` and `remove(element)`, both of which look for the
 * first element EQUAL to the argument (structural equality of data classes).
 */
module Lists {

  /** `indexOf(x)`: the index of the first element equal to `x`, or -1. */
  function IndexOf<T(==)>(s: seq<T>, x: T): (k: int)
    ensures k == -1 <==> x !in s
    ensures k != -1 ==> 0 <= k < |s| && s[k] == x
    ensures k != -1 ==> forall j :: 0 <= j < k ==> s[j] != x
  {
    if s == [] then -1
    else if s[0] == x then 0
    else
      var k := IndexOf(s[1..], x);
      if k == -1 then -1 else k + 1
  }

  /** `remove(x)`: drops the first element equal to `x`; no change when there is none. */
  function RemoveFirst<T(==)>(s: seq<T>, x: T): (r: seq<T>)
    ensures x !in s ==> r == s
    ensures x in s ==> r == s[..IndexOf(s, x)] + s[IndexOf(s, x) + 1..]
  {
    if s == [] then []
    else if s[0] == x then
      assert IndexOf(s, x) == 0 && s[..0] + s[1..] == s[1..];
      s[1..]
    else
      var rest := RemoveFirst(s[1..], x);
      RemoveFirstStep(s, x, rest);
      [s[0]] + rest
  }

  /** Keeping a head that differs from `x` in front of the tail with `x` removed. */
  lemma RemoveFirstStep<T>(s: seq<T>, x: T, rest: seq<T>)
    requires s != [] && s[0] != x
    requires x !in s[1..] ==> rest == s[1..]
    requires x in s[1..] ==> rest == s[1..][..IndexOf(s[1..], x)] + s[1..][IndexOf(s[1..], x) + 1..]
    ensures x !in s ==> [s[0]] + rest == s
    ensures x in s ==> [s[0]] + rest == s[..IndexOf(s, x)] + s[IndexOf(s, x) + 1..]
  {
    assert s == [s[0]] + s[1..];
    if x in s {
      var k := IndexOf(s[1..], x);
      assert x in s[1..];
      assert IndexOf(s, x) == k + 1;
      assert s[..k + 1] == [s[0]] + s[1..][..k];
      assert s[k + 2..] == s[1..][k + 1..];
    }
  }

  /** Deleting position `k + 1` of `[x] + s` deletes position `k` of `s`. */
  lemma DeleteAfterHead<T>(x: T, s: seq<T>, k: nat)
    requires k < |s|
    ensures ([x] + s)[..k + 1] + ([x] + s)[k + 2..] == [x] + (s[..k] + s[k + 1..])
  {
    var all := [x] + s;
    assert all[..k + 1] == [x] + s[..k];
    assert all[k + 2..] == s[k + 1..];
  }
}
