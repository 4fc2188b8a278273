/**
 * The array helpers of src/utils/arrays.ts: delete the first occurrence of
 * an item in place, and run a callback on the first element that matches.
 */
module Arrays {
  import opened Wrappers
  import opened ArrayBuiltins

  /** A JavaScript array: a reference to a list that grows and shrinks in place. */
  class JsArray<T> {
    var elems: seq<T>

    constructor (elems: seq<T>)
      ensures this.elems == elems
    {
      this.elems := elems;
    }
  }

  /**
   * What deleting `item` by reference leaves: the first occurrence (strict
   * equality, so identity for objects) is removed, nothing else moves
   * except the later elements shifting down, and an absent item changes
   * nothing.
   */
  function DeleteFirst<T(==)>(s: seq<T>, item: T): (r: seq<T>)
    ensures item !in s ==> r == s
    ensures item in s ==> exists i :: 0 <= i < |s| && s[i] == item && item !in s[..i] &&
                                      r == s[..i] + s[i + 1..]
    ensures multiset(r) == multiset(s) - multiset{item}
  {
    var index := IndexOf(s, item);
    if index > -1 then
      assert RemoveAt(s, index) == s[..index] + s[index + 1..];
      RemoveAt(s, index)
    else
      assert multiset(s)[item] == 0;
      s
  }

  /** deleteFromArrayByReference: splice the first occurrence out and return the same array. */
  method DeleteFromArrayByReference<T(==)>(arr: JsArray<T>, item: T) returns (r: JsArray<T>)
    modifies arr
    ensures r == arr
    ensures arr.elems == DeleteFirst(old(arr.elems), item)
  {
    var index := IndexOf(arr.elems, item);
    if index > -1 {
      arr.elems := RemoveAt(arr.elems, index);
    }
    r := arr;
  }

  /**
   * withElement(arrGetter)(predicate, callback) as written: the element the
   * callback is invoked with, or None when it is not invoked. `arr` is what
   * the getter returns at the call, `matches` is the predicate, and `truthy`
   * is JavaScript's truth test
   * on the element type, which `if (elem)` applies to the found element.
   */
  function WithElementAsWritten<T>(arr: seq<T>, matches: T -> bool, truthy: T -> bool): (invoked: Option<T>)
    ensures invoked.Some? <==> exists i :: IsFirstMatch(arr, matches, i) && truthy(arr[i])
    ensures invoked.Some? ==> exists i :: IsFirstMatch(arr, matches, i) && arr[i] == invoked.value
  {
    var elem := Find(arr, matches);
    if elem.Some? && truthy(elem.value) then elem else None
  }

  /**
   * withElement with the intended test "an element was found": the callback
   * runs at most once, on the first element satisfying `matches`, and
   * runs whenever some element does.
   */
  function WithElement<T>(arr: seq<T>, matches: T -> bool): (invoked: Option<T>)
    ensures invoked.None? <==> NoMatch(arr, matches)
    ensures invoked.Some? ==> exists i :: IsFirstMatch(arr, matches, i) && arr[i] == invoked.value
  {
    Find(arr, matches)
  }

  /** withElementAsync, its awaiting left out: the same first-match, at-most-once call. */
  function WithElementAsync<T>(arr: seq<T>, matches: T -> bool): (invoked: Option<T>)
    ensures invoked == WithElement(arr, matches)
  {
    Find(arr, matches)
  }

  /** A first match that is falsy (here the number 0) never reaches the callback as written. */
  lemma FalsyFirstMatchIsSkipped()
    ensures WithElementAsWritten([0], x => x == 0, x => x != 0) == None
    ensures WithElement([0], x => x == 0) == Some(0)
  {
  }

  /** Over elements that are all truthy, such as objects, the two readings agree. */
  lemma AsWrittenAgreesOnTruthyElements<T>(arr: seq<T>, matches: T -> bool, truthy: T -> bool)
    requires forall j :: 0 <= j < |arr| ==> truthy(arr[j])
    ensures WithElementAsWritten(arr, matches, truthy) == WithElement(arr, matches)
  {
  }
}
