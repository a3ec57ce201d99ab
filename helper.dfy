/** The two helper functions of the script: `helper.forEach` and `helper.mixin`. */
module Helper {
  import opened Types

  /**
   * What `forEach` over an array returns: the first callback result that is
   * not undefined, or null when every callback returned undefined.
   */
  function FirstResult<T, R>(s: seq<T>, f: T -> Option<R>): (r: Option<R>)
    ensures r.None? <==> forall i :: 0 <= i < |s| ==> f(s[i]).None?
    ensures r.Some? ==> exists i :: 0 <= i < |s| && f(s[i]) == r && forall j :: 0 <= j < i ==> f(s[j]).None?
  {
    if s == [] then None
    else if f(s[0]).Some? then f(s[0])
    else
      var r := FirstResult(s[1..], f);
      assert forall i :: 1 <= i < |s| ==> s[i] == s[1..][i - 1];
      r
  }

  /** The result of `forEach` is the callback's result at the first index where it is defined. */
  lemma {:induction false} FirstResultAt<T, R>(s: seq<T>, f: T -> Option<R>, i: nat)
    requires i < |s| && f(s[i]).Some?
    requires forall j :: 0 <= j < i ==> f(s[j]).None?
    ensures FirstResult(s, f) == f(s[i])
  {
    if i > 0 {
      assert forall j :: 0 <= j < i - 1 ==> s[1..][j] == s[j + 1];
      FirstResultAt(s[1..], f, i - 1);
    }
  }

  /** `forEach` over an array: call `f` on each element in order and stop at the first defined result. */
  method ForEach<T, R>(s: seq<T>, f: T -> Option<R>) returns (r: Option<R>)
    ensures r == FirstResult(s, f)
  {
    var i := 0;
    while i < |s|
      invariant 0 <= i <= |s|
      invariant FirstResult(s, f) == FirstResult(s[i..], f)
    {
      var result := f(s[i]);
      if result.Some? {
        return result;
      }
      assert s[i..][1..] == s[i + 1..];
      i := i + 1;
    }
    return None;
  }

  /** The index of the first element satisfying `p`, or `|s|` when there is none. */
  function FirstIndex<T>(s: seq<T>, p: T -> bool): (k: nat)
    ensures k <= |s|
    ensures k < |s| ==> p(s[k])
    ensures forall j :: 0 <= j < k ==> !p(s[j])
  {
    if s == [] then 0
    else if p(s[0]) then 0
    else
      var k := FirstIndex(s[1..], p);
      assert forall j :: 1 <= j < k + 1 ==> s[j] == s[1..][j - 1];
      1 + k
  }

  /**
   * `mixin(source, target)`: every own member of `source` is copied onto
   * `target`, so on a clash the source's value wins.
   */
  function Mixin<K, V>(source: map<K, V>, target: map<K, V>): (r: map<K, V>)
    ensures r.Keys == source.Keys + target.Keys
    ensures forall k :: k in source ==> r[k] == source[k]
    ensures forall k :: k in target && k !in source ==> r[k] == target[k]
  {
    target + source
  }
}
